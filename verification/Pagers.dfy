/** pager.cpp: the page store and its allocator, with frees deferred per transaction. */
module Pagers {
  import opened Nodes
  import opened Trees
  import opened FreeSpace
  import opened Steps

  datatype Option<+T> = None | Some(value: T)

  /** MetaStruct, without the signature, version, page size and checksum. */
  datatype MetaStruct = MetaStruct(
    pageCount: nat, userRoot: PageId, freeListPgid: PageId,
    freePairCount: nat, freeListPageCount: nat, txid: TxId)

  const PAGE_COUNT_LIMIT: nat := 0x1_0000_0000  // PageCount is a uint32_t
  const PAIR_SIZE: nat := 8                     // sizeof(PagePair)

  /** The first interval that is large enough, or |s|. */
  function FirstFit(s: seq<PagePair>, count: nat): (i: nat)
    ensures i <= |s|
  {
    if s == [] then 0
    else
      var i := FirstFit(s[..|s| - 1], count);
      if i < |s| - 1 || s[|s| - 1].count >= count then i else |s|
  }

  lemma {:induction false} FirstFitIsLowest(s: seq<PagePair>, count: nat)
    ensures var i := FirstFit(s, count);
            && (i < |s| ==> s[i].count >= count)
            && forall j :: 0 <= j < i ==> s[j].count < count
  {
    if s != [] {
      FirstFitIsLowest(s[..|s| - 1], count);
    }
  }

  /** The pairs of all transactions, in order: what SaveFreeList appends after the free map. */
  function AllPairs(s: seq<Pending>): seq<PagePair> {
    if s == [] then [] else AllPairs(s[..|s| - 1]) + s[|s| - 1].pairs
  }

  lemma {:induction false} NoPairs(s: seq<Pending>)
    ensures AllPairs(s[..0]) == []
  {}

  lemma {:induction false} MorePending(s: seq<Pending>, n: nat)
    requires n < |s|
    ensures AllPairs(s[..n + 1]) == AllPairs(s[..n]) + s[n].pairs
  {
    assert s[..n + 1][..n] == s[..n];
  }

  /** A run as long as one released interval can be taken from the map. */
  lemma {:induction false} ReleasedFits(ps: seq<PagePair>, free: seq<PagePair>, j: nat, count: nat)
    requires AllInOne(ps, free) && j < |ps| && 0 < count <= ps[j].count
    ensures FirstFit(free, count) < |free|
  {
    FirstFitIsLowest(free, count);
    var i :| 0 <= i < |free| && Inside(ps[j], free[i]);
    assert free[i].count >= count;
  }

  lemma {:induction false} AllPairsBag(s: seq<Pending>)
    ensures SpanBag(AllPairs(s)) == PendBag(s)
  {
    if s != [] {
      AllPairsBag(s[..|s| - 1]);
      SpanBagConcat(AllPairs(s[..|s| - 1]), s[|s| - 1].pairs);
    }
  }

  /** The list's pages hold as many pairs as the meta page says. */
  predicate ListReadable(pages: map<PageId, Page>, meta: MetaStruct) {
    && meta.freeListPgid in pages && pages[meta.freeListPgid].ListPage?
    && meta.freePairCount <= |pages[meta.freeListPgid].pairs|
  }

  /** The pairs of the list the meta refers to. */
  function ListedPairs(pages: map<PageId, Page>, meta: MetaStruct): seq<PagePair> {
    if meta.freeListPgid == INVALID_PAGE || meta.freePairCount == 0 || !ListReadable(pages, meta) then []
    else pages[meta.freeListPgid].pairs[..meta.freePairCount]
  }

  /** The pages LoadFreeList enters into the free map. */
  ghost function ListedFree(pages: map<PageId, Page>, meta: MetaStruct): multiset<PageId> {
    SpanBag(ListedPairs(pages, meta))
  }

  /** The pages of the saved list, if there is one. */
  function ListSpan(meta: MetaStruct): multiset<PageId> {
    if meta.freeListPgid == INVALID_PAGE then multiset{} else Span(PagePair(meta.freeListPgid, meta.freeListPageCount))
  }

  /** The saved list, if there is one, is on pages of its own. */
  ghost predicate ListHeld(meta: MetaStruct, held: multiset<PageId>) {
    meta.freeListPgid != INVALID_PAGE ==> meta.freeListPageCount > 0 && ListSpan(meta) <= held
  }

  /** So many pages hold so many pairs, and fewer would not. */
  predicate FewestPages(pairs: nat, count: nat) {
    pairs * PAIR_SIZE <= count * PAGE_SIZE && (count > 0 ==> (count - 1) * PAGE_SIZE < pairs * PAIR_SIZE)
  }

  lemma {:induction false} PairsFit(pairs: nat, count: nat)
    requires count == pairs * PAIR_SIZE / PAGE_SIZE + if pairs * PAIR_SIZE % PAGE_SIZE != 0 then 1 else 0
    ensures FewestPages(pairs, count) && (pairs > 0 ==> count > 0) && pairs * PAIR_SIZE <= count * PAGE_SIZE
  {
    var bytes := pairs * PAIR_SIZE;
    var whole := bytes / PAGE_SIZE;
    assert bytes == whole * PAGE_SIZE + bytes % PAGE_SIZE;
    assert (whole + 1) * PAGE_SIZE == whole * PAGE_SIZE + PAGE_SIZE;
    assert (whole - 1) * PAGE_SIZE == whole * PAGE_SIZE - PAGE_SIZE;
  }

  /** A run of pages comes from the lowest free interval that is large enough or, with none, from the file's end. */
  ghost predicate TakenRun(free: seq<PagePair>, n: nat, p: PagePair, free': seq<PagePair>, n': nat) {
    var i := FirstFit(free, p.count);
    if i < |free| then p.id == free[i].id && n' == n && SpanBag(free') + Span(p) == SpanBag(free)
    else p.id == n && n' == n + p.count && free' == free
  }

  lemma {:induction false} RunTaken(free: seq<PagePair>, n: nat, p: PagePair, free': seq<PagePair>, n': nat)
    requires var i := FirstFit(free, p.count);
      if i < |free| then p.id == free[i].id && n' == n && SpanBag(free') + Span(p) == SpanBag(free)
      else p.id == n && n' == n + p.count && free' == free
    ensures TakenRun(free, n, p, free', n')
  {
    hide SpanBag, Interval, FirstFit;
  }

  lemma {:induction false} MorePairs(a: nat, b: nat, c: nat)
    requires a <= b
    ensures (a + c) * PAIR_SIZE <= (b + c) * PAIR_SIZE
  {}

  lemma {:induction false} BagGrows(a: multiset<PageId>, b: multiset<PageId>, more: multiset<PageId>)
    ensures a + b <= a + (b + more) && b <= b + more
  {}

  /** What the file was grown by belongs to the run. */
  lemma {:induction false} RunGrows(free: seq<PagePair>, n: nat, p: PagePair, free': seq<PagePair>, n': nat)
    requires TakenRun(free, n, p, free', n')
    ensures n <= n' && Span(PagePair(n, n' - n)) <= Span(p)
  {
    hide Interval, SpanBag, FirstFit;
    EmptySpan(PagePair(n, 0));
  }

  /** What a commit keeps of the pages its list was written to: those that were free, not those at the file's end. */
  ghost function ListKept(free: seq<PagePair>, count: nat): multiset<PageId> {
    var i := FirstFit(free, count);
    if i < |free| then Span(PagePair(free[i].id, count)) else multiset{}
  }

  lemma {:induction false} KeptOfRun(free: seq<PagePair>, n: nat, p: PagePair, free': seq<PagePair>, n': nat,
                                     held: multiset<PageId>, held1: multiset<PageId>)
    requires TakenRun(free, n, p, free', n') && held1 == held + Span(p)
    ensures n <= n' && Span(PagePair(n, n' - n)) <= held1
    ensures held1 - Span(PagePair(n, n' - n)) == held + ListKept(free, p.count)
    ensures SpanBag(free') + ListKept(free, p.count) == SpanBag(free)
  {
    hide Interval, SpanBag, FirstFit;
    EmptySpan(PagePair(n, 0));
    RunGrows(free, n, p, free', n');
  }

  ghost predicate Unused(ids: multiset<PageId>, used: multiset<PageId>) { forall x :: x in ids ==> x !in used }

  ghost predicate WritesOnly(ids: multiset<PageId>, p: map<PageId, Page>, p': map<PageId, Page>) {
    forall x :: x !in ids && x in p ==> x in p' && p'[x] == p[x]
  }

  lemma {:induction false} SameNothing(p: map<PageId, Page>, used: multiset<PageId>)
    ensures SameOn(p, p, used)
  {}

  lemma {:induction false} SameApart(p: map<PageId, Page>, p': map<PageId, Page>, used: multiset<PageId>,
                                     ids: multiset<PageId>)
    requires Unused(ids, used) && WritesOnly(ids, p, p')
    ensures SameOn(p, p', used)
  {}

  lemma {:induction false} SameIsFrozen(p: map<PageId, Page>, p': map<PageId, Page>, used: multiset<PageId>, cur: TxId)
    requires SameOn(p, p', used)
    ensures Frozen(p, p', used, cur)
  {}

  lemma {:induction false} Cancel(d: nat, q: nat, b: nat)
    requires b > 0 && d * b <= q * b
    ensures d <= q
  {}

  lemma {:induction false} Times(a: nat, b: nat, c: nat)
    requires b <= c
    ensures a * b <= a * c
  {}

  lemma {:induction false} DivideBound(a: nat, b: nat, q: nat)
    requires b > 0 && a <= q * b
    ensures a / b <= q
  {
    assert a / b * b <= a;
    Cancel(a / b, q, b);
  }

  lemma {:induction false} FewPages(pairs: nat, pageCount: nat)
    requires pairs <= pageCount <= PAGE_MAX_COUNT
    ensures pairs * PAIR_SIZE / PAGE_SIZE + 1 + pageCount < PAGE_COUNT_LIMIT
  {
    Times(pairs, PAIR_SIZE, PAGE_SIZE);
    DivideBound(pairs * PAIR_SIZE, PAGE_SIZE, pairs);
  }

  lemma {:induction false} AllPairsPositive(s: seq<Pending>)
    requires PositivePending(s)
    ensures forall i :: 0 <= i < |AllPairs(s)| ==> AllPairs(s)[i].count > 0
  {
    if s != [] {
      AllPairsPositive(s[..|s| - 1]);
      forall i | 0 <= i < |AllPairs(s)| ensures AllPairs(s)[i].count > 0 {
        var m := |AllPairs(s[..|s| - 1])|;
        if i >= m { assert AllPairs(s)[i] == s[|s| - 1].pairs[i - m]; }
      }
    }
  }

  lemma {:induction false} SplitPending(s: seq<Pending>, n: nat)
    requires n <= |s|
    ensures PendBag(s) == PendBag(s[..n]) + PendBag(s[n..])
  {
    assert s == s[..n] + s[n..];
    PendBagConcat(s[..n], s[n..]);
  }

  lemma {:induction false} CutGrown(others: multiset<PageId>, held: multiset<PageId>, grown: multiset<PageId>,
                                    file: multiset<PageId>)
    requires others + held == file + grown && grown <= held
    ensures others + (held - grown) == file
  {
    forall x ensures (others + (held - grown))[x] == file[x] {
      assert (others + held)[x] == (file + grown)[x];
    }
  }

  lemma {:induction false} EmptySpan(p: PagePair)
    requires p.count == 0
    ensures Span(p) == multiset{}
  {}

  lemma {:induction false} FirstOfSpan(id: PageId, count: nat)
    requires count > 0
    ensures id in Span(PagePair(id, count))
  {}

  /**
   * The meta refers to a list that says which pages are free: reading it gives just those, its pairs fit its
   * pages, and its own pages are not among them.
   */
  ghost predicate ListSaved(pages: map<PageId, Page>, meta: MetaStruct, free: multiset<PageId>) {
    && ListedFree(pages, meta) == free && (meta.freePairCount > 0 ==> ListReadable(pages, meta))
    && meta.freePairCount * PAIR_SIZE <= meta.freeListPageCount * PAGE_SIZE
    && Span(PagePair(meta.freeListPgid, meta.freeListPageCount)) !! free
  }

  /** One page was taken: the first of the lowest free interval or, with nothing free, one the file was grown by. */
  ghost predicate TakenFirst(free: seq<PagePair>, count: nat, id: PageId, count': nat) {
    if free == [] then id == count && count' == count + 1 else id == free[0].id && count' == count
  }

  /** The first page of the first interval is the lowest free page. */
  lemma {:induction false} FirstTaken(free: seq<PagePair>, free': seq<PagePair>, id: PageId, grown: bool)
    requires SortedPairs(free) && Once(SpanBag(free))
    requires if free == [] then free' == [] else id == free[0].id && SpanBag(free') + multiset{id} == SpanBag(free)
    requires grown ==> free == []
    ensures TookLowest(SpanBag(free), SpanBag(free')) && (grown ==> SpanBag(free') == multiset{})
  {
    hide Interval, SpanBag;
    SpanBagEmpty();
    if free != [] {
      forall y | y in SpanBag(free') ensures id < y {
        assert y in SpanBag(free) && (y == id ==> SpanBag(free)[id] >= 2);
        NoneLower(free, y);
      }
      forall x | x in SpanBag(free) && x !in SpanBag(free') ensures x == id {}
    }
  }

  lemma {:induction false} NoneLower(s: seq<PagePair>, x: PageId)
    requires SortedPairs(s) && x in SpanBag(s)
    ensures s != [] && s[0].id <= x
  {
    if x in Span(s[|s| - 1]) {
      assert s[0].id <= s[|s| - 1].id;
    } else {
      NoneLower(s[..|s| - 1], x);
    }
  }

  /** What FreeToMap sees around the place of the freed interval. */
  lemma {:induction false} FreedFacts(s: seq<PagePair>, pgid: PageId, count: nat)
    requires Between(s, LowerPair(s, pgid), pgid, count) && SortedPairs(s) && count > 0
    ensures var i := LowerPair(s, pgid); i < |s| ==>
      && s[i].count > 0 && s[i].id + s[i].count != pgid && |RemoveAt(s, i)| == |s| - 1
      && (i > 0 ==> RemoveAt(s, i)[i - 1] == s[i - 1])
  {}

  class Pager {
    var pages: map<PageId, Page>     // the mapped file
    var meta: MetaStruct             // update_tx().meta_struct()
    var freeMap: seq<PagePair>
    var pendingMap: seq<Pending>
    var allocRecords: seq<PagePair>
    ghost var held: multiset<PageId> // allocated and not freed

    // As they stood when the write transaction began.
    ghost var baseFree: multiset<PageId>
    ghost var basePending: seq<Pending>
    ghost var baseHeld: multiset<PageId>
    ghost var baseCount: nat

    /** Free, pending and held pages partition the file. */
    ghost predicate Valid()
      reads this`freeMap, this`pendingMap, this`held, this`meta
    {
      && SortedPairs(freeMap) && SortedPending(pendingMap)
      && 2 <= meta.pageCount < PAGE_COUNT_LIMIT
      && SpanBag(freeMap) + PendBag(pendingMap) + held == FileBag(meta.pageCount)
      && PositivePending(pendingMap) && OlderThan(pendingMap, meta.txid + 1)
    }

    /** A write transaction is open, and this is what undoing it rests on. */
    ghost predicate InTx()
      reads this`freeMap, this`pendingMap, this`allocRecords, this`held, this`meta,
            this`baseFree, this`basePending, this`baseHeld, this`baseCount
    {
      && Valid()
      && SpanBag(freeMap) + SpanBag(allocRecords) == baseFree
      && PositivePairs(allocRecords)
      && OlderThan(basePending, meta.txid) && ExtendsBy(pendingMap, basePending, meta.txid)
      && 2 <= baseCount <= meta.pageCount
      && baseFree + PendBag(basePending) + baseHeld == FileBag(baseCount)
    }

    /** Pages that hold something a reader may still look at. */
    ghost function Used(): multiset<PageId>
      reads this`pendingMap, this`held
    {
      PendBag(pendingMap) + held
    }

    ghost function TheWorld(): World
      reads this`pages, this`held, this`meta
    {
      World(pages, held, meta.userRoot, meta.txid)
    }

    ghost function TheSnap(): Snap
      reads this`pages, this`held, this`pendingMap, this`freeMap, this`meta,
            this`baseFree, this`basePending, this`baseHeld, this`baseCount
    {
      Snap(pages, PendBag(pendingMap), Used(), SpanBag(freeMap), meta.pageCount, meta.txid,
           Fixed(meta.freeListPgid, meta.freePairCount, meta.freeListPageCount,
                 baseFree, basePending, baseHeld, baseCount))
    }

    /** Writes stay in their transaction. */
    lemma {:induction false} SameTx(s: Snap)
      requires Wrote(s, TheSnap())
      ensures s.cur == meta.txid
    {}

    lemma {:induction false} SnapUsed()
      ensures TheSnap().used == Used() && TheSnap().cur == meta.txid
    {}

    /** A new database: Meta::Init's in-memory meta and an empty allocator. */
    constructor (meta: MetaStruct, pages: map<PageId, Page>)
      requires 2 <= meta.pageCount < PAGE_COUNT_LIMIT
      ensures this.meta == meta && this.pages == pages
      ensures freeMap == [] && pendingMap == [] && allocRecords == []
      ensures held == FileBag(meta.pageCount)
      ensures Valid()
    {
      this.meta, this.pages := meta, pages;
      freeMap, pendingMap, allocRecords := [], [], [];
      held := FileBag(meta.pageCount);
      baseFree, basePending, baseHeld, baseCount := multiset{}, [], multiset{}, 0;
    }

    /** AllocFromMap: takes from the lowest interval that is large enough. */
    method AllocFromMap(count: nat) returns (pgid: PageId)
      requires InTx() && (count > 0 || freeMap == [])
      modifies this`freeMap, this`allocRecords, this`held
      ensures InTx()
      ensures var i := FirstFit(old(freeMap), count);
              if i == |old(freeMap)| then
                pgid == INVALID_PAGE && freeMap == old(freeMap) && allocRecords == old(allocRecords)
                && held == old(held)
              else
                && pgid == old(freeMap)[i].id && pgid + count <= meta.pageCount
                && allocRecords == old(allocRecords) + [PagePair(pgid, count)]
                && held == old(held) + Span(PagePair(pgid, count))
                && SpanBag(freeMap) + Span(PagePair(pgid, count)) == old(SpanBag(freeMap))
      ensures |freeMap| <= |old(freeMap)|
    {
      hide Interval, SpanBag, PendBag, FirstFit;
      pgid := INVALID_PAGE;
      var i := 0;
      FirstFitIsLowest(freeMap, count);
      while i < |freeMap| && freeMap[i].count < count
        invariant i <= FirstFit(freeMap, count)
      {
        i := i + 1;
      }
      if i < |freeMap| {
        pgid := freeMap[i].id;
        FreePairInFile(i);
        FileOnce();
        TakeFromBag(freeMap, i, count);
        TakeFromSorted(freeMap, i, count);
        SpanBagConcat(allocRecords, [PagePair(pgid, count)]);
        SpanBagOne(PagePair(pgid, count));
        freeMap := TakeFrom(freeMap, i, count);
        allocRecords := allocRecords + [PagePair(pgid, count)];
        held := held + Span(PagePair(pgid, count));
      }
    }

    /** Any interval is large enough for one page. */
    lemma {:induction false} AnyFitsOne()
      requires InTx()
      ensures SortedPairs(freeMap) && Once(SpanBag(freeMap)) && 2 <= meta.pageCount
      ensures FirstFit(freeMap, 1) == 0
    {
      hide SpanBag, PendBag, Interval;
      FileOnce();
      FirstFitIsLowest(freeMap, 1);
      assert freeMap != [] ==> freeMap[0].count >= 1;
    }

    /** No page is free, pending or held twice. */
    lemma {:induction false} FileOnce()
      requires Valid()
      ensures Once(SpanBag(freeMap) + Used())
      ensures Once(SpanBag(freeMap)) && Once(Used()) && SpanBag(freeMap) !! Used()
    {
      hide SpanBag, PendBag, Interval;
      FileBagOnce(meta.pageCount);
      assert SpanBag(freeMap) + Used() == FileBag(meta.pageCount);
      OncePart(SpanBag(freeMap), Used());
    }

    lemma {:induction false} HeldOnce()
      requires InTx()
      ensures Once(held)
    {
      FileOnce();
      OncePart(PendBag(pendingMap), held);
    }

    lemma {:induction false} HeldInFile()
      requires InTx()
      ensures held <= FileBag(meta.pageCount) && 2 <= meta.pageCount
    {
      hide SpanBag, PendBag, Interval;
      assert held + (SpanBag(freeMap) + PendBag(pendingMap)) == FileBag(meta.pageCount);
    }

    lemma {:induction false} FreePairInFile(i: nat)
      requires Valid() && i < |freeMap|
      ensures 2 <= freeMap[i].id && freeMap[i].id + freeMap[i].count <= meta.pageCount
    {
      hide SpanBag, PendBag;
      var p := freeMap[i];
      SpanBagAt(freeMap, i);
      assert p.id in Span(p) && p.id + p.count - 1 in Span(p);
      assert p.id in FileBag(meta.pageCount) && p.id + p.count - 1 in FileBag(meta.pageCount);
    }

    /** Pages past the end of the file are not in use. */
    lemma {:induction false} PastEndUnused(count: nat)
      requires Valid()
      ensures forall x :: x in Span(PagePair(meta.pageCount, count)) ==> x !in Used()
    {
      hide SpanBag, PendBag;
      forall x | x in Span(PagePair(meta.pageCount, count)) ensures x !in Used() {
        assert x !in FileBag(meta.pageCount);
        assert (SpanBag(freeMap) + Used())[x] == FileBag(meta.pageCount)[x];
      }
    }

    /** The other half of Alloc: pages at the end of the file. */
    method GrowFile(count: nat) returns (pgid: PageId)
      requires InTx() && meta.pageCount + count < PAGE_COUNT_LIMIT
      modifies this`held, this`meta
      ensures InTx() && meta == old(meta).(pageCount := old(meta.pageCount) + count)
      ensures pgid == old(meta.pageCount) && held == old(held) + Span(PagePair(pgid, count))
    {
      hide Interval, SpanBag, PendBag;
      pgid := meta.pageCount;
      FileBagGrow(meta.pageCount, count);
      meta := meta.(pageCount := meta.pageCount + count);
      held := held + Span(PagePair(pgid, count));
    }

    lemma {:induction false} InTxSize()
      requires InTx()
      ensures 2 <= meta.pageCount < PAGE_COUNT_LIMIT
    {}

    /** Neither the run that fits first nor the end of the file is in use. */
    lemma {:induction false} RunsUnused(count: nat)
      requires InTx()
      ensures 2 <= meta.pageCount < PAGE_COUNT_LIMIT
      ensures forall x :: x in Span(PagePair(meta.pageCount, count)) ==> x !in Used()
      ensures var i := FirstFit(freeMap, count); i < |freeMap| ==>
        && 2 <= freeMap[i].id && freeMap[i].id + count <= meta.pageCount
        && forall x :: x in Span(PagePair(freeMap[i].id, count)) ==> x !in Used()
    {
      hide SpanBag, PendBag, FirstFit;
      FileOnce();
      PastEndUnused(count);
      FirstFitIsLowest(freeMap, count);
      var i := FirstFit(freeMap, count);
      if i < |freeMap| {
        FreePairInFile(i);
        SpanBagAt(freeMap, i);
        forall x | x in Span(PagePair(freeMap[i].id, count)) ensures x !in Used() { assert x in Span(freeMap[i]); }
      }
    }

    /** Alloc: from the free map, else at the end of the file; None when page ids run out. */
    method Alloc(count: nat) returns (r: Option<PageId>)
      requires InTx() && (count > 0 || freeMap == [])
      modifies this`freeMap, this`allocRecords, this`held, this`meta
      ensures InTx() && meta == old(meta).(pageCount := meta.pageCount)
      ensures old(meta.pageCount) <= meta.pageCount <= old(meta.pageCount) + count
      ensures meta.pageCount < PAGE_COUNT_LIMIT
      ensures r.None? <==> FirstFit(old(freeMap), count) == |old(freeMap)|
                           && old(meta.pageCount) + count >= PAGE_COUNT_LIMIT
      ensures r.None? ==> meta == old(meta) && freeMap == old(freeMap) && held == old(held)
      ensures r.Some? ==>
                && held == old(held) + Span(PagePair(r.value, count))
                && (forall x :: x in Span(PagePair(r.value, count)) ==> x !in old(Used()))
                && r.value >= 2 && r.value + count <= meta.pageCount
      ensures r.Some? ==>
                TakenRun(old(freeMap), old(meta.pageCount), PagePair(r.value, count), freeMap, meta.pageCount)
      ensures |freeMap| <= |old(freeMap)|
    {
      hide Interval, SpanBag, PendBag, FirstFit, InTx, Valid, TakenRun;
      RunsUnused(count);
      ghost var free := freeMap;
      var pgid := AllocFromMap(count);
      if pgid == INVALID_PAGE {
        if meta.pageCount + count >= PAGE_COUNT_LIMIT {
          return None;
        }
        pgid := GrowFile(count);
        InTxSize();
      }
      RunTaken(free, old(meta.pageCount), PagePair(pgid, count), freeMap, meta.pageCount);
      r := Some(pgid);
    }

    /** Free: the pages wait under this transaction. */
    method Free(pgid: PageId, count: nat)
      requires InTx() && count > 0 && Span(PagePair(pgid, count)) <= held
      modifies this`pendingMap, this`held
      ensures InTx() && Used() == old(Used())
      ensures held == old(held) - Span(PagePair(pgid, count))
      ensures PendBag(pendingMap) == old(PendBag(pendingMap)) + Span(PagePair(pgid, count))
    {
      hide Interval, SpanBag, PendBag, AddPending, SortedPending, PositivePending, ExtendsBy, OlderThan;
      var p := PagePair(pgid, count);
      AddPendingBag(pendingMap, meta.txid, p);
      AddPendingLast(pendingMap, basePending, meta.txid, p);
      pendingMap := AddPending(pendingMap, meta.txid, p);
      held := held - Span(p);
    }

    /**
     * Alloc(1) and Build: a new page of this transaction, the first of the lowest free interval or, if no page is
     * free, one at the end of the file. Page ids must not have run out.
     */
    method NewPage(page: Page) returns (id: PageId)
      requires InTx() && meta.pageCount < PAGE_MAX_COUNT && Owned(page, meta.txid)
      modifies this`pages, this`freeMap, this`allocRecords, this`held, this`meta
      ensures InTx() && id !in old(Used()) && id < meta.pageCount
      ensures TakenFirst(old(freeMap), old(meta.pageCount), id, meta.pageCount)
      ensures TheWorld() == old(TheWorld()).(pages := old(pages)[id := page], held := old(held) + multiset{id})
      ensures Used() == old(Used()) + multiset{id}
      ensures Wrote(old(TheSnap()), TheSnap()) && meta.pageCount <= old(meta.pageCount) + 1
    {
      hide Interval, PendBag, SpanBag, FirstFit, Valid, InTx;
      AnyFitsOne();
      ghost var free := freeMap;
      var r := Alloc(1);
      id := r.value;
      SpanUnit(id);
      FirstTaken(free, freeMap, id, meta.pageCount > old(meta.pageCount));
      pages := pages[id := page];
    }

    /** Writing a page of this transaction in place. */
    method SetPage(id: PageId, page: Page)
      requires InTx() && id in pages && Owned(pages[id], meta.txid) && Owned(page, meta.txid)
      modifies this`pages
      ensures InTx() && TheWorld() == old(TheWorld()).(pages := old(pages)[id := page])
      ensures Used() == old(Used()) && meta == old(meta) && Wrote(old(TheSnap()), TheSnap())
    {
      hide SpanBag, PendBag, Interval;
      pages := pages[id := page];
    }

    /** A page of this transaction is rewritten, and part of it goes to a new page. */
    method SplitPage(id: PageId, page: Page, other: Page) returns (newId: PageId)
      requires InTx() && meta.pageCount < PAGE_MAX_COUNT
      requires id in pages && id in held && Owned(pages[id], meta.txid)
      requires Owned(page, meta.txid) && Owned(other, meta.txid)
      modifies this`pages, this`freeMap, this`allocRecords, this`held, this`meta
      ensures InTx() && newId !in old(Used()) && newId < meta.pageCount
      ensures TakenFirst(old(freeMap), old(meta.pageCount), newId, meta.pageCount)
      ensures TheWorld() == old(TheWorld()).(pages := old(pages)[id := page][newId := other],
                                             held := old(held) + multiset{newId})
      ensures Wrote(old(TheSnap()), TheSnap()) && meta.pageCount <= old(meta.pageCount) + 1
    {
      hide InTx, Valid;
      ghost var s0 := TheSnap();
      SetPage(id, page);
      ghost var s1 := TheSnap();
      newId := NewPage(other);
      WroteThen(s0, s1, TheSnap());
    }

    /** A page is copied, and the page of this transaction that points to it is rewritten. */
    method CopyPageBelow(id: PageId, parent: PageId, slot: nat) returns (copy: PageId)
      requires InTx() && meta.pageCount < PAGE_MAX_COUNT && parent != id
      requires id in held && id in pages && !pages[id].ListPage?
      requires parent in held && parent in pages && Owned(pages[parent], meta.txid)
      requires pages[parent].BranchPage? && slot <= |pages[parent].b.slots|
      modifies this`pages, this`freeMap, this`allocRecords, this`held, this`meta, this`pendingMap
      ensures InTx() && copy !in old(held)
      ensures TakenFirst(old(freeMap), old(meta.pageCount), copy, meta.pageCount)
      ensures TheWorld() == old(TheWorld()).(
        pages := old(pages)[copy := old(pages)[id].(tx := meta.txid)]
                           [parent := BranchPage(meta.txid, old(pages)[parent].b.SetChild(slot, copy))],
        held := old(held) + multiset{copy} - multiset{id})
      ensures Wrote(old(TheSnap()), TheSnap()) && meta.pageCount <= old(meta.pageCount) + 1
    {
      hide InTx, Valid;
      ghost var s0 := TheSnap();
      copy := CopyPage(id);
      ghost var s1 := TheSnap();
      SetPage(parent, BranchPage(meta.txid, pages[parent].b.SetChild(slot, copy)));
      WroteThen(s0, s1, TheSnap());
    }

    /** Node::Copy of a branch, with one child link of the copy set. */
    method CopyBranch(id: PageId, slot: nat, child: PageId) returns (copy: PageId)
      requires InTx() && meta.pageCount < PAGE_MAX_COUNT
      requires id in held && id in pages && pages[id].BranchPage? && slot <= |pages[id].b.slots|
      modifies this`pages, this`freeMap, this`allocRecords, this`held, this`meta, this`pendingMap
      ensures InTx() && copy !in old(Used())
      ensures TakenFirst(old(freeMap), old(meta.pageCount), copy, meta.pageCount)
      ensures TheWorld() == old(TheWorld()).(
        pages := old(pages)[copy := BranchPage(meta.txid, old(pages)[id].b.SetChild(slot, child))],
        held := old(held) + multiset{copy} - multiset{id})
      ensures Wrote(old(TheSnap()), TheSnap()) && meta.pageCount <= old(meta.pageCount) + 1
    {
      hide InTx, Valid;
      ghost var s0 := TheSnap();
      copy := NewPage(BranchPage(meta.txid, pages[id].b.SetChild(slot, child)));
      ghost var s1 := TheSnap();
      FreePage(id);
      WroteThen(s0, s1, TheSnap());
    }

    /** Two pages of this transaction are rewritten. */
    method SetTwoPages(id: PageId, page: Page, id': PageId, page': Page)
      requires InTx() && id in pages && Owned(pages[id], meta.txid) && id' in pages && Owned(pages[id'], meta.txid)
      requires Owned(page, meta.txid) && Owned(page', meta.txid)
      modifies this`pages
      ensures InTx() && TheWorld() == old(TheWorld()).(pages := old(pages)[id := page][id' := page'])
      ensures meta == old(meta) && Wrote(old(TheSnap()), TheSnap())
    {
      hide InTx, Valid;
      ghost var s0 := TheSnap();
      SetPage(id, page);
      ghost var s1 := TheSnap();
      SetPage(id', page');
      WroteThen(s0, s1, TheSnap());
    }

    /** A page of this transaction is rewritten and another one is freed. */
    method SetAndFree(id: PageId, page: Page, freed: PageId)
      requires InTx() && id in pages && Owned(pages[id], meta.txid) && Owned(page, meta.txid) && freed in held
      modifies this`pages, this`pendingMap, this`held
      ensures InTx()
      ensures TheWorld() == old(TheWorld()).(pages := old(pages)[id := page], held := old(held) - multiset{freed})
      ensures meta == old(meta) && Wrote(old(TheSnap()), TheSnap())
    {
      hide InTx, Valid;
      ghost var s0 := TheSnap();
      SetPage(id, page);
      ghost var s1 := TheSnap();
      FreePage(freed);
      WroteThen(s0, s1, TheSnap());
    }

    /** The root moves to another page and the old root is freed. */
    method ReplaceRoot(root: PageId, freed: PageId)
      requires InTx() && freed in held
      modifies this`meta, this`pendingMap, this`held
      ensures InTx()
      ensures TheWorld() == old(TheWorld()).(root := root, held := old(held) - multiset{freed})
      ensures meta == old(meta).(userRoot := root) && Wrote(old(TheSnap()), TheSnap())
    {
      hide InTx, Valid;
      ghost var s0 := TheSnap();
      SetRoot(root);
      ghost var s1 := TheSnap();
      FreePage(freed);
      WroteThen(s0, s1, TheSnap());
    }

    /** root_pgid_ is a reference to the transaction's user_root. */
    method SetRoot(id: PageId)
      requires InTx()
      modifies this`meta
      ensures InTx() && TheWorld() == old(TheWorld()).(root := id)
      ensures Used() == old(Used()) && meta == old(meta).(userRoot := id) && Wrote(old(TheSnap()), TheSnap())
    {
      meta := meta.(userRoot := id);
    }

    /** Free(id, 1): the page waits; its content stays. */
    method FreePage(id: PageId)
      requires InTx() && id in held
      modifies this`pendingMap, this`held
      ensures InTx() && TheWorld() == old(TheWorld()).(held := old(held) - multiset{id})
      ensures Used() == old(Used()) && meta == old(meta) && Wrote(old(TheSnap()), TheSnap())
    {
      hide InTx, Valid;
      SpanUnit(id);
      Free(id, 1);
    }

    /** Node::Copy: the page's content on a new page of this transaction, and the page freed. */
    method CopyPage(id: PageId) returns (copy: PageId)
      requires InTx() && meta.pageCount < PAGE_MAX_COUNT
      requires id in held && id in pages && !pages[id].ListPage?
      modifies this`pages, this`freeMap, this`allocRecords, this`held, this`meta, this`pendingMap
      ensures InTx() && copy !in old(Used()) && copy < meta.pageCount
      ensures TakenFirst(old(freeMap), old(meta.pageCount), copy, meta.pageCount)
      ensures TheWorld() == old(TheWorld()).(
        pages := old(pages)[copy := old(pages)[id].(tx := meta.txid)],
        held := old(held) + multiset{copy} - multiset{id})
      ensures Used() == old(Used()) + multiset{copy}
      ensures Wrote(old(TheSnap()), TheSnap()) && meta.pageCount <= old(meta.pageCount) + 1
    {
      hide InTx, Valid;
      ghost var s0 := TheSnap();
      copy := NewPage(pages[id].(tx := meta.txid));
      ghost var s1 := TheSnap();
      FreePage(id);
      WroteThen(s0, s1, TheSnap());
    }

    /** How many pairs SaveFreeList reserves space for. */
    method CountPairs() returns (n: nat)
      ensures n == |freeMap| + |AllPairs(pendingMap)|
    {
      n := |freeMap|;
      for i := 0 to |pendingMap|
        invariant n == |freeMap| + |AllPairs(pendingMap[..i])|
      {
        assert pendingMap[..i + 1][..i] == pendingMap[..i];
        n := n + |pendingMap[i].pairs|;
      }
      assert pendingMap[..|pendingMap|] == pendingMap;
    }

    /** The pairs SaveFreeList copies to its buffer: the free map, then the pending vectors. */
    method PairsToSave() returns (buf: seq<PagePair>)
      ensures buf == freeMap + AllPairs(pendingMap)
    {
      buf := freeMap;
      for i := 0 to |pendingMap|
        invariant buf == freeMap + AllPairs(pendingMap[..i])
      {
        assert pendingMap[..i + 1][..i] == pendingMap[..i];
        buf := buf + pendingMap[i].pairs;
      }
      assert pendingMap[..|pendingMap|] == pendingMap;
    }

    /** The first part of SaveFreeList: the pages of the old list wait for release like any freed page. */
    method FreeOldList()
      requires InTx() && ListHeld(meta, held)
      modifies this`pendingMap, this`held
      ensures InTx() && Used() == old(Used())
      ensures PendBag(pendingMap) == old(PendBag(pendingMap)) + ListSpan(meta)
      ensures held == old(held) - ListSpan(meta)
      ensures meta.freeListPgid == INVALID_PAGE ==> pendingMap == old(pendingMap) && held == old(held)
    {
      hide Interval, SpanBag, PendBag, InTx;
      if meta.freeListPgid != INVALID_PAGE {
        Free(meta.freeListPgid, meta.freeListPageCount);
      }
    }

    /** The size of the list: the fewest pages that hold the pairs there are. */
    method PagesForPairs() returns (count: nat)
      requires InTx()
      ensures FewestPages(|freeMap| + |AllPairs(pendingMap)|, count)
      ensures (|freeMap| + |AllPairs(pendingMap)|) * PAIR_SIZE <= count * PAGE_SIZE
      ensures freeMap + AllPairs(pendingMap) != [] ==> count > 0
      ensures meta.pageCount <= PAGE_MAX_COUNT ==> count + meta.pageCount < PAGE_COUNT_LIMIT
    {
      hide AllPairs, InTx, FewestPages;
      var pairCount := CountPairs();
      var bytes := pairCount * PAIR_SIZE;
      count := bytes / PAGE_SIZE;
      if bytes % PAGE_SIZE != 0 { count := count + 1; }
      PairsFit(|freeMap| + |AllPairs(pendingMap)|, count);
      if meta.pageCount <= PAGE_MAX_COUNT { PairsInFile(); }
    }

    /** The second part: the fewest pages that hold as many pairs as there are now. */
    method ReserveList() returns (r: Option<PageId>, count: nat)
      requires InTx()
      modifies this`freeMap, this`allocRecords, this`held, this`meta
      ensures InTx() && meta == old(meta).(pageCount := meta.pageCount) && meta.pageCount >= old(meta.pageCount)
      ensures FewestPages(|old(freeMap)| + |AllPairs(pendingMap)|, count)
      ensures (|freeMap| + |AllPairs(pendingMap)|) * PAIR_SIZE <= count * PAGE_SIZE
      ensures freeMap + AllPairs(pendingMap) != [] ==> count > 0
      ensures r.None? ==> meta == old(meta) && freeMap == old(freeMap) && held == old(held)
      ensures old(meta.pageCount) <= PAGE_MAX_COUNT ==> r.Some?
      ensures r.Some? ==>
        && TakenRun(old(freeMap), old(meta.pageCount), PagePair(r.value, count), freeMap, meta.pageCount)
        && held == old(held) + Span(PagePair(r.value, count)) && (count > 0 ==> r.value != INVALID_PAGE)
        && Unused(Span(PagePair(r.value, count)), old(Used()))
    {
      hide Interval, SpanBag, PendBag, FirstFit, AllPairs, InTx, Valid, Used, FewestPages, TakenRun;
      count := PagesForPairs();
      r := Alloc(count);
      MorePairs(|freeMap|, |old(freeMap)|, |AllPairs(pendingMap)|);
    }

    /** Every pair stands for a page, so the list is short enough for a file below the page id limit. */
    lemma {:induction false} PairsInFile()
      requires InTx() && meta.pageCount <= PAGE_MAX_COUNT
      ensures |freeMap| + |AllPairs(pendingMap)| <= meta.pageCount
      ensures (|freeMap| + |AllPairs(pendingMap)|) * PAIR_SIZE / PAGE_SIZE + 1 + meta.pageCount < PAGE_COUNT_LIMIT
    {
      hide Interval, SpanBag, PendBag, AllPairs;
      AllPairsPositive(pendingMap);
      SpanBagSize(freeMap);
      SpanBagSize(AllPairs(pendingMap));
      AllPairsBag(pendingMap);
      assert |SpanBag(freeMap) + PendBag(pendingMap) + held| == |FileBag(meta.pageCount)|;
      IntervalSize(2, meta.pageCount);
      FewPages(|freeMap| + |AllPairs(pendingMap)|, meta.pageCount);
    }

    /** The last part: the pairs are written to the reserved pages. */
    method WriteList(pgid: PageId, count: nat)
      requires count > 0 ==> pgid != INVALID_PAGE
      requires InTx() && Span(PagePair(pgid, count)) <= held && (freeMap + AllPairs(pendingMap) != [] ==> count > 0)
      requires (|freeMap| + |AllPairs(pendingMap)|) * PAIR_SIZE <= count * PAGE_SIZE
      modifies this`pages, this`meta
      ensures InTx() && meta == old(meta).(freeListPgid := pgid, freeListPageCount := count,
                                           freePairCount := |freeMap| + |AllPairs(pendingMap)|)
      ensures ListSaved(pages, meta, SpanBag(freeMap) + PendBag(pendingMap))
      ensures WritesOnly(Span(PagePair(pgid, count)), old(pages), pages)
    {
      hide Interval, SpanBag, PendBag, AllPairs, InTx, Valid;
      var buf := PairsToSave();
      AllPairsBag(pendingMap);
      SpanBagConcat(freeMap, AllPairs(pendingMap));
      SpanBagEmpty();
      SetListMeta(pgid, count, |buf|);
      if buf != [] {
        FirstOfSpan(pgid, count);
        pages := pages[pgid := ListPage(buf)];
        assert buf[..|buf|] == buf;
      }
      SavedHere(pgid, count);
    }

    /** The list's fields of the transaction's meta. */
    method SetListMeta(pgid: PageId, count: nat, pairs: nat)
      requires InTx()
      modifies this`meta
      ensures InTx() && meta == old(meta).(freeListPgid := pgid, freeListPageCount := count, freePairCount := pairs)
    {
      meta := meta.(freeListPgid := pgid, freeListPageCount := count, freePairCount := pairs);
    }

    /** SaveFreeList once the old list is freed: pages are reserved and the pairs written to them. */
    method StoreList() returns (ok: bool)
      requires InTx()
      modifies this`pages, this`freeMap, this`allocRecords, this`held, this`meta
      ensures InTx() && meta.userRoot == old(meta.userRoot) && meta.txid == old(meta.txid)
      ensures SameOn(old(pages), pages, old(Used())) && old(Used()) <= Used() && old(held) <= held
      ensures old(meta.pageCount) <= PAGE_MAX_COUNT ==> ok
      ensures !ok ==> held == old(held)
      ensures meta.pageCount >= old(meta.pageCount)
      ensures ok ==> ListSaved(pages, meta, SpanBag(freeMap) + PendBag(pendingMap))
      ensures ok ==> FewestPages(|old(freeMap)| + |AllPairs(pendingMap)|, meta.freeListPageCount)
      ensures ok ==> var list := PagePair(meta.freeListPgid, meta.freeListPageCount);
        && TakenRun(old(freeMap), old(meta.pageCount), list, freeMap, meta.pageCount)
        && held == old(held) + Span(list)
    {
      hide Interval, SpanBag, PendBag, AllPairs, InTx, Valid, ListedFree, ListReadable, WritesOnly, Unused, SameOn,
           ListSpan, ListSaved, FewestPages, TakenRun, Span;
      ghost var pages0, used0 := pages, Used();
      SameNothing(pages0, used0);
      var r, count := ReserveList();
      if r.None? {
        return false;
      }
      WriteList(r.value, count);
      SameApart(pages0, pages, used0, Span(PagePair(r.value, count)));
      ok := true;
    }

    /**
     * SaveFreeList: frees the old list's pages, reserves pages for the pairs, then writes the pairs. The pairs
     * fit the pages reserved. Reading them back gives exactly the pages that are free or pending afterwards,
     * the old list's among them and the new list's not. Page ids may run out, and then it fails.
     */
    method SaveFreeList() returns (ok: bool)
      requires InTx() && ListHeld(meta, held)
      modifies this`pages, this`freeMap, this`allocRecords, this`held, this`meta, this`pendingMap
      ensures InTx() && meta.userRoot == old(meta.userRoot) && meta.txid == old(meta.txid)
      ensures SameOn(old(pages), pages, old(Used())) && old(Used()) <= Used()
      ensures old(meta.freeListPgid) == INVALID_PAGE ==> pendingMap == old(pendingMap) && old(held) <= held
      ensures old(meta.pageCount) <= PAGE_MAX_COUNT ==> ok
      ensures meta.pageCount >= old(meta.pageCount)
      ensures old(PendBag(pendingMap)) + old(ListSpan(meta)) <= PendBag(pendingMap)
      ensures ok ==> ListSaved(pages, meta, SpanBag(freeMap) + PendBag(pendingMap))
      ensures ok ==> FewestPages(|old(freeMap)| + |AllPairs(pendingMap)|, meta.freeListPageCount)
      ensures ok ==> var list := PagePair(meta.freeListPgid, meta.freeListPageCount);
        && TakenRun(old(freeMap), old(meta.pageCount), list, freeMap, meta.pageCount)
        && held == old(held) - old(ListSpan(meta)) + Span(list)
    {
      hide Interval, SpanBag, PendBag, AllPairs, InTx, Valid, SameOn, ListHeld, ListSpan, ListSaved, FewestPages,
           TakenRun, Used, Span;
      FreeOldList();
      ok := StoreList();
    }

    /** A list that has been saved can be loaded from the same pages and meta. */
    lemma {:induction false} SavedListLoads()
      requires InTx() && ListSaved(pages, meta, SpanBag(freeMap) + PendBag(pendingMap))
      ensures ListedFree(pages, meta) <= FileBag(meta.pageCount)
      ensures meta.freePairCount > 0 && meta.freeListPgid != INVALID_PAGE ==> ListReadable(pages, meta)
    {
      hide Interval, SpanBag, PendBag, ListedFree, ListReadable;
      assert (SpanBag(freeMap) + PendBag(pendingMap)) + held == FileBag(meta.pageCount);
    }

    /** LoadFreeList, for a file just opened: the free pages are those listed, all others are held. */
    method LoadFreeList()
      requires Valid() && freeMap == [] && pendingMap == [] && held == FileBag(meta.pageCount)
      requires meta.freePairCount > 0 && meta.freeListPgid != INVALID_PAGE ==> ListReadable(pages, meta)
      requires ListedFree(pages, meta) <= held
      modifies this`freeMap, this`held
      ensures Valid() && SpanBag(freeMap) == ListedFree(pages, meta)
      ensures AllInOne(ListedPairs(pages, meta), freeMap)
      ensures held + ListedFree(pages, meta) == FileBag(meta.pageCount)
    {
      hide Interval, SpanBag, PendBag, Once;
      SpanBagEmpty();
      PendBagEmpty();
      AllInOneSelf(freeMap);
      if meta.freeListPgid == INVALID_PAGE || meta.freePairCount == 0 {
        return;
      }
      ghost var listed := ListedFree(pages, meta);
      FileBagOnce(meta.pageCount);
      assert listed + (held - listed) == FileBag(meta.pageCount);
      OncePart(listed, held - listed);
      EnterPairs(pages[meta.freeListPgid].pairs[..meta.freePairCount]);
      held := held - listed;
    }

    /** The loop of LoadFreeList. */
    method EnterPairs(freeList: seq<PagePair>)
      requires freeMap == [] && Once(SpanBag(freeList))
      modifies this`freeMap
      ensures SortedPairs(freeMap) && SpanBag(freeMap) == SpanBag(freeList) && AllInOne(freeList, freeMap)
    {
      hide Interval, SpanBag, Once, AllInOne, InOne;
      SpanBagEmpty();
      AllInOneSelf(freeMap);
      for i := 0 to |freeList|
        invariant SortedPairs(freeMap) && SpanBag(freeMap) == SpanBag(freeList[..i])
        invariant AllInOne(freeList[..i], freeMap)
      {
        ghost var free := freeMap;
        SpanBagAt(freeList, i);
        SpanBagConcat(freeList[..i], [freeList[i]]);
        SpanBagOne(freeList[i]);
        assert freeList[..i] + [freeList[i]] == freeList[..i + 1];
        OncePart(SpanBag(freeMap) + Span(freeList[i]), SpanBag(freeList[i + 1..]));
        if freeList[i].count == 0 {
          EmptySpan(freeList[i]);
        } else {
          FreeToMap(freeList[i].id, freeList[i].count);
          AllInOneThen(freeList[..i], free, freeMap);
        }
        AllInOneMore(freeList[..i], freeList[i], freeMap);
      }
      assert freeList[..|freeList|] == freeList;
    }

    lemma {:induction false} ListApart(p: PagePair)
      requires InTx() && Span(p) <= held
      ensures Span(p) !! SpanBag(freeMap) + PendBag(pendingMap)
    {
      hide Interval, SpanBag, PendBag;
      FileOnce();
      assert SpanBag(freeMap) + Used() == (SpanBag(freeMap) + PendBag(pendingMap)) + held;
      OncePart(SpanBag(freeMap) + PendBag(pendingMap), held);
      forall x | x in Span(p) ensures x in held { assert held[x] >= Span(p)[x] > 0; }
    }

    lemma {:induction false} SavedHere(pgid: PageId, count: nat)
      requires InTx() && Span(PagePair(pgid, count)) <= held
      requires meta.freeListPgid == pgid && meta.freeListPageCount == count
      requires meta.freePairCount == |freeMap| + |AllPairs(pendingMap)|
      requires (|freeMap| + |AllPairs(pendingMap)|) * PAIR_SIZE <= count * PAGE_SIZE
      requires ListedFree(pages, meta) == SpanBag(freeMap) + PendBag(pendingMap)
      requires meta.freePairCount > 0 ==> ListReadable(pages, meta)
      ensures ListSaved(pages, meta, SpanBag(freeMap) + PendBag(pendingMap))
    {
      ListApart(PagePair(pgid, count));
    }

    /**
     * FreeToMap: joins the interval that follows. The one that precedes is joined too if one follows directly or
     * none follows at all; otherwise it is not looked at, and the freed interval is entered on its own.
     */
    method FreeToMap(pgid: PageId, count: nat)
      requires SortedPairs(freeMap) && count > 0
      requires Once(SpanBag(freeMap) + Span(PagePair(pgid, count)))
      modifies this`freeMap
      ensures SortedPairs(freeMap)
      ensures SpanBag(freeMap) == old(SpanBag(freeMap)) + Span(PagePair(pgid, count))
      ensures NoStart(freeMap, pgid + count)
      ensures var i := LowerPair(old(freeMap), pgid);
        if i == |old(freeMap)| || old(freeMap)[i].id == pgid + count then NoEnd(freeMap, pgid)
        else freeMap == InsertAt(old(freeMap), i, PagePair(pgid, count))
      ensures AllInOne(old(freeMap), freeMap) && InOne(freeMap, PagePair(pgid, count))
    {
      hide Interval, SpanBag, Once, NoStart, NoEnd, Between, SortedPairs, RemoveAt, InsertAt, AllInOne, InOne;
      FreedBetween(freeMap, pgid, count);
      ghost var s0, n := freeMap, count;
      FreedFacts(freeMap, pgid, count);
      ghost var total := SpanBag(freeMap) + Span(PagePair(pgid, count));
      var count := count;
      var i := LowerPair(freeMap, pgid);
      var tmp: int;  // tmp_iter as an index; -1 when there is no such element
      if i < |freeMap| {
        if freeMap[i].id == pgid + count {
          RemovePair(freeMap, i);
          SpanSplit(pgid, count, freeMap[i].count);
          count := count + freeMap[i].count;
          freeMap := RemoveAt(freeMap, i);
          tmp := i - 1;
        } else {
          tmp := i;
        }
      } else {
        tmp := |freeMap| - 1;
      }
      assert SpanBag(freeMap) + Span(PagePair(pgid, count)) == total;
      if tmp >= 0 && freeMap[tmp].id + freeMap[tmp].count == pgid {
        ExtendPair(freeMap, tmp, count);
        FreedExtends(s0, i, pgid, n, freeMap, count);
        ghost var s1 := freeMap;
        freeMap := freeMap[tmp := PagePair(freeMap[tmp].id, freeMap[tmp].count + count)];
        ExtendCovers(s0, i, pgid, n, s1, tmp, freeMap);
      } else {
        InsertPair(freeMap, PagePair(pgid, count));
        FreedEnters(s0, i, pgid, n, freeMap, LowerPair(freeMap, pgid), count);
        ghost var s1 := freeMap;
        freeMap := InsertAt(freeMap, LowerPair(freeMap, pgid), PagePair(pgid, count));
        EnterCovers(s0, i, pgid, n, s1, LowerPair(s1, pgid), freeMap);
      }
    }

    /** The loop of Release and Rollback over a vector of intervals. */
    method FreeAllToMap(pairs: seq<PagePair>)
      requires SortedPairs(freeMap)
      requires PositivePairs(pairs)
      requires Once(SpanBag(freeMap) + SpanBag(pairs))
      modifies this`freeMap
      ensures SortedPairs(freeMap) && SpanBag(freeMap) == old(SpanBag(freeMap)) + SpanBag(pairs)
      ensures AllInOne(old(freeMap), freeMap) && AllInOne(pairs, freeMap)
    {
      hide Interval, SpanBag, Once, AllInOne, InOne;
      SpanBagEmpty();
      AllInOneSelf(freeMap);
      for i := 0 to |pairs|
        invariant SortedPairs(freeMap)
        invariant SpanBag(freeMap) == old(SpanBag(freeMap)) + SpanBag(pairs[..i])
        invariant AllInOne(old(freeMap), freeMap) && AllInOne(pairs[..i], freeMap)
      {
        ghost var free := freeMap;
        SpanBagAt(pairs, i);
        SpanBagConcat(pairs[..i], [pairs[i]]);
        SpanBagOne(pairs[i]);
        assert pairs[..i] + [pairs[i]] == pairs[..i + 1];
        ghost var rest := SpanBag(pairs[i + 1..]);
        assert (SpanBag(freeMap) + Span(pairs[i])) + rest == old(SpanBag(freeMap)) + SpanBag(pairs);
        OncePart(SpanBag(freeMap) + Span(pairs[i]), rest);
        FreeToMap(pairs[i].id, pairs[i].count);
        AllInOneThen(old(freeMap), free, freeMap);
        AllInOneThen(pairs[..i], free, freeMap);
        AllInOneMore(pairs[..i], pairs[i], freeMap);
      }
      assert pairs[..|pairs|] == pairs;
    }

    /** One turn of Release: the pages of the oldest entry become free. */
    method ReleaseOldest()
      requires Valid() && pendingMap != []
      modifies this`freeMap, this`pendingMap
      ensures Valid() && pendingMap == old(pendingMap)[1..]
      ensures SpanBag(freeMap) == old(SpanBag(freeMap)) + SpanBag(old(pendingMap)[0].pairs)
      ensures AllInOne(old(freeMap), freeMap) && AllInOne(old(pendingMap)[0].pairs, freeMap)
    {
      hide Interval, SpanBag, PendBag, Once;
      PendBagAt(pendingMap, 0);
      PendBagEmpty();
      ghost var rest := PendBag(pendingMap[1..]) + held;
      assert pendingMap[..0] == [];
      assert (SpanBag(freeMap) + SpanBag(pendingMap[0].pairs)) + rest == FileBag(meta.pageCount);
      FileBagOnce(meta.pageCount);
      OncePart(SpanBag(freeMap) + SpanBag(pendingMap[0].pairs), rest);
      FreeAllToMap(pendingMap[0].pairs);
      pendingMap := pendingMap[1..];
    }

    /** The loop of Release: the n oldest entries, which are those before releasable, become free. */
    method ReleaseOlder(releasable: TxId) returns (ghost n: nat)
      requires Valid()
      modifies this`freeMap, this`pendingMap
      ensures Valid() && n == LowerPending(old(pendingMap), releasable)
      ensures pendingMap == old(pendingMap)[n..]
      ensures SpanBag(freeMap) == old(SpanBag(freeMap)) + PendBag(old(pendingMap)[..n])
      ensures AllInOne(old(freeMap), freeMap) && AllInOne(AllPairs(old(pendingMap)[..n]), freeMap)
    {
      hide Interval, SpanBag, PendBag, LowerPending, AllInOne, AllPairs;
      PendBagEmpty();
      AllInOneSelf(freeMap);
      NoPairs(pendingMap);
      assert SortedPending(pendingMap);
      hide Valid, SortedPending;
      n := 0;
      ghost var pend0 := pendingMap;
      while pendingMap != [] && pendingMap[0].tx < releasable
        invariant n <= |pend0| && pendingMap == pend0[n..]
        invariant n > 0 ==> pend0[n - 1].tx < releasable
        invariant Valid()
        invariant SpanBag(freeMap) == old(SpanBag(freeMap)) + PendBag(pend0[..n])
        invariant AllInOne(old(freeMap), freeMap) && AllInOne(AllPairs(pend0[..n]), freeMap)
        decreases |pendingMap|
      {
        PendBagConcat(pend0[..n], [pend0[n]]);
        PendBagOne(pend0[n]);
        assert pend0[..n] + [pend0[n]] == pend0[..n + 1];
        ghost var free := freeMap;
        ReleaseOldest();
        AllInOneThen(old(freeMap), free, freeMap);
        AllInOneThen(AllPairs(pend0[..n]), free, freeMap);
        AllInOneConcat(AllPairs(pend0[..n]), pend0[n].pairs, freeMap);
        MorePending(pend0, n);
        n := n + 1;
      }
      LowerPendingUnique(pend0, releasable, n);
    }

    /** Release: pages freed by transactions before releasable become free. A write transaction begins. */
    method Release(releasable: TxId) returns (ghost n: nat)
      requires Valid() && OlderThan(pendingMap, meta.txid)
      modifies this`freeMap, this`pendingMap, this`allocRecords, this`baseFree, this`basePending,
               this`baseHeld, this`baseCount
      ensures InTx() && allocRecords == []
      ensures n == LowerPending(old(pendingMap), releasable) && pendingMap == old(pendingMap)[n..]
      ensures SpanBag(freeMap) == old(SpanBag(freeMap)) + PendBag(old(pendingMap)[..n])
      ensures AllInOne(old(freeMap), freeMap) && AllInOne(AllPairs(old(pendingMap)[..n]), freeMap)
      ensures baseFree == SpanBag(freeMap) && basePending == pendingMap
      ensures baseHeld == held && baseCount == meta.pageCount
    {
      hide Interval, SpanBag, PendBag, LowerPending, Valid, InTx, OlderThan;
      allocRecords := [];
      n := ReleaseOlder(releasable);
      OlderSuffix(old(pendingMap), n, meta.txid);
      MarkBegin();
    }

    /** TxImpl's copy of the database's meta, with the next transaction id. */
    method OpenTx(dbMeta: MetaStruct)
      requires Valid() && meta == dbMeta
      modifies this`meta
      ensures Valid() && meta == dbMeta.(txid := dbMeta.txid + 1)
    {
      meta := dbMeta.(txid := dbMeta.txid + 1);
    }

    /** The pager's part of Update: the transaction's meta copy and the releases. */
    method BeginTx(dbMeta: MetaStruct, releasable: TxId) returns (ghost n: nat)
      requires Valid() && meta == dbMeta && OlderThan(pendingMap, dbMeta.txid + 1)
      modifies this`meta, this`freeMap, this`pendingMap, this`allocRecords, this`baseFree, this`basePending,
               this`baseHeld, this`baseCount
      ensures InTx() && meta == dbMeta.(txid := dbMeta.txid + 1)
      ensures n == LowerPending(old(pendingMap), releasable) && basePending == pendingMap == old(pendingMap)[n..]
      ensures baseHeld == held && baseCount == dbMeta.pageCount
      ensures old(Used()) == Used() + PendBag(old(pendingMap)[..n])
      ensures AllInOne(old(freeMap), freeMap) && AllInOne(AllPairs(old(pendingMap)[..n]), freeMap)
    {
      hide Valid, InTx, SpanBag, PendBag, LowerPending, OlderThan;
      OpenTx(dbMeta);
      SplitPending(pendingMap, LowerPending(pendingMap, releasable));
      n := Release(releasable);
    }

    /**
     * The end of Commit: the transaction's meta is dropped, and with it what SaveFreeList changed in it. Pages the
     * file was grown by for the list are no longer part of it.
     */
    method CloseTx(dbMeta: MetaStruct)
      requires InTx() && dbMeta.txid == meta.txid && 2 <= dbMeta.pageCount <= meta.pageCount
      requires Span(PagePair(dbMeta.pageCount, meta.pageCount - dbMeta.pageCount)) <= held
      modifies this`meta, this`held
      ensures Valid() && meta == dbMeta && dbMeta.pageCount >= 2
      ensures Used() + Span(PagePair(dbMeta.pageCount, old(meta.pageCount) - dbMeta.pageCount)) == old(Used())
      ensures held == old(held) - Span(PagePair(dbMeta.pageCount, old(meta.pageCount) - dbMeta.pageCount))
    {
      hide Interval, SpanBag, PendBag;
      ghost var grown := Span(PagePair(dbMeta.pageCount, meta.pageCount - dbMeta.pageCount));
      FileBagGrow(dbMeta.pageCount, meta.pageCount - dbMeta.pageCount);
      CutGrown(SpanBag(freeMap) + PendBag(pendingMap), held, grown, FileBag(dbMeta.pageCount));
      held := held - grown;
      meta := dbMeta;
    }

    lemma {:induction false} TxPending()
      requires InTx()
      ensures ExtendsBy(pendingMap, basePending, meta.txid) && SortedPending(pendingMap)
    {}

    lemma {:induction false} UsedInFile()
      requires Valid() || InTx()
      ensures Used() <= FileBag(meta.pageCount) && held <= FileBag(meta.pageCount) && 2 <= meta.pageCount
    {
      hide SpanBag, PendBag, Interval;
      assert Used() + SpanBag(freeMap) == FileBag(meta.pageCount);
      assert held + (PendBag(pendingMap) + SpanBag(freeMap)) == FileBag(meta.pageCount);
    }

    lemma {:induction false} UsedIs()
      ensures Used() == PendBag(pendingMap) + held
    {}

    lemma {:induction false} UsedGrew(used0: multiset<PageId>, held0: multiset<PageId>, more: multiset<PageId>)
      requires used0 == PendBag(pendingMap) + held0 && held == held0 + more
      ensures used0 <= Used() && held0 <= held
    {
      hide PendBag;
      BagGrows(PendBag(pendingMap), held0, more);
    }

    lemma {:induction false} NoList()
      requires meta.freeListPgid == INVALID_PAGE
      ensures ListHeld(meta, held) && ListSpan(meta) == multiset{}
    {}

    /**
     * The pager's part of Commit for a database without a saved list: SaveFreeList, and then the transaction's
     * meta is dropped. Nothing in use is lost or overwritten; frees still wait. The pages of the list stay held,
     * though nothing refers to them: count of them, if they were free before.
     */
    method FinishCommit() returns (ghost count: nat)
      requires InTx() && meta.freeListPgid == INVALID_PAGE && meta.pageCount <= PAGE_MAX_COUNT
      modifies this`pages, this`freeMap, this`allocRecords, this`held, this`meta, this`pendingMap
      ensures Valid() && meta == old(meta) && pendingMap == old(pendingMap)
      ensures SameOn(old(pages), pages, old(Used()))
      ensures old(Used()) <= Used() && old(held) <= held
      ensures FewestPages(|old(freeMap)| + |AllPairs(pendingMap)|, count)
      ensures held == old(held) + ListKept(old(freeMap), count)
      ensures SpanBag(freeMap) + ListKept(old(freeMap), count) == old(SpanBag(freeMap))
    {
      hide SpanBag, PendBag, Interval, InTx, Valid, ListedFree, ListReadable, SameOn, ListSpan, AllPairs,
           FewestPages, TakenRun, ListKept, FirstFit, ListSaved, Span, Used;
      NoList();
      UsedInFile();
      UsedIs();
      ghost var free0, held0, used0 := freeMap, held, Used();
      assert used0 == PendBag(pendingMap) + held0;
      var txMeta := meta;
      var ok := SaveFreeList();
      count := meta.freeListPageCount;
      ghost var list := PagePair(meta.freeListPgid, count);
      assert held == held0 + Span(list);
      KeptOfRun(free0, txMeta.pageCount, list, freeMap, meta.pageCount, held0, held);
      CloseTx(txMeta);
      UsedGrew(used0, held0, ListKept(free0, count));
    }

    /** Remembers the allocator's state for the transaction that begins. */
    ghost method MarkBegin()
      requires Valid() && OlderThan(pendingMap, meta.txid) && allocRecords == []
      modifies this`baseFree, this`basePending, this`baseHeld, this`baseCount
      ensures InTx()
      ensures baseFree == SpanBag(freeMap) && basePending == pendingMap
      ensures baseHeld == held && baseCount == meta.pageCount
    {
      hide Interval, SpanBag, PendBag, SortedPairs, PositivePending, OlderThan;
      SpanBagEmpty();
      baseFree, basePending, baseHeld, baseCount := SpanBag(freeMap), pendingMap, held, meta.pageCount;
    }

    /** Rollback, and the drop of the transaction's meta copy: everything is as it was at the beginning. */
    method Rollback(dbMeta: MetaStruct)
      requires InTx() && dbMeta.pageCount == baseCount && dbMeta.txid + 1 == meta.txid
      modifies this
      ensures Valid() && pages == old(pages)
      ensures SpanBag(freeMap) == old(baseFree) && pendingMap == old(basePending)
      ensures held == old(baseHeld) && meta == dbMeta && allocRecords == []
      ensures AllInOne(old(freeMap), freeMap) && AllInOne(old(allocRecords), freeMap)
    {
      hide Interval, SpanBag, PendBag;
      SpanBagEmpty();
      var i := LowerPending(pendingMap, meta.txid);
      ghost var k := |basePending|;
      if i < |pendingMap| && pendingMap[i].tx == meta.txid {
        assert i == k;
        pendingMap := pendingMap[..i] + pendingMap[i + 1..];
      }
      assert pendingMap == basePending;
      FileBagOnce(baseCount);
      assert baseFree + (PendBag(basePending) + baseHeld) == FileBag(baseCount);
      OncePart(baseFree, PendBag(basePending) + baseHeld);
      FreeAllToMap(allocRecords);
      allocRecords := [];
      held, meta := baseHeld, dbMeta;
    }
  }

  /** The pager of a file that is opened: the pages its list names are free, all others are held. */
  method OpenPager(meta: MetaStruct, pages: map<PageId, Page>) returns (pager: Pager)
    requires 2 <= meta.pageCount < PAGE_COUNT_LIMIT && ListedFree(pages, meta) <= FileBag(meta.pageCount)
    requires meta.freePairCount > 0 && meta.freeListPgid != INVALID_PAGE ==> ListReadable(pages, meta)
    ensures fresh(pager) && pager.Valid() && pager.meta == meta && pager.pages == pages
    ensures SpanBag(pager.freeMap) == ListedFree(pages, meta) && pager.pendingMap == []
    ensures AllInOne(ListedPairs(pages, meta), pager.freeMap)
    ensures pager.held + ListedFree(pages, meta) == FileBag(meta.pageCount)
  {
    pager := new Pager(meta, pages);
    pager.LoadFreeList();
  }
}
