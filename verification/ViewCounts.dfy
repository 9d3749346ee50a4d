/** view_tx_map_: how many views are open on each version. */
module ViewCounts {
  import opened Nodes
  import opened FreeSpace
  import opened Transactions

  /** An entry of view_tx_map_. */
  datatype ViewCount = ViewCount(txid: TxId, count: nat)

  /** The open views of a version. */
  ghost function Viewers(views: map<nat, Version>, txid: TxId): set<nat> {
    set id | id in views && views[id].txid == txid
  }

  /** view_tx_map_.find(txid), or where the entry would go. */
  function LowerView(s: seq<ViewCount>, txid: TxId): (i: nat)
    ensures i <= |s|
    ensures i > 0 ==> s[i - 1].txid < txid
    ensures i < |s| ==> s[i].txid >= txid
  {
    LowerKey(seq(|s|, j requires 0 <= j < |s| => s[j].txid), txid)
  }

  predicate HasView(s: seq<ViewCount>, txid: TxId) {
    var i := LowerView(s, txid);
    i < |s| && s[i].txid == txid
  }

  /** One more view of txid. */
  function AddView(s: seq<ViewCount>, txid: TxId): seq<ViewCount> {
    var i := LowerView(s, txid);
    if HasView(s, txid) then s[i := ViewCount(txid, s[i].count + 1)] else InsertAt(s, i, ViewCount(txid, 1))
  }

  /** One view of txid less; the last one takes the entry with it. */
  function DropView(s: seq<ViewCount>, txid: TxId): seq<ViewCount>
    requires HasView(s, txid) && s[LowerView(s, txid)].count > 0
  {
    var i := LowerView(s, txid);
    if s[i].count == 1 then RemoveAt(s, i) else s[i := ViewCount(txid, s[i].count - 1)]
  }

  /** Ascending ids with positive counts. */
  ghost predicate Ascending(s: seq<ViewCount>) {
    && (forall i, j :: 0 <= i < j < |s| ==> s[i].txid < s[j].txid)
    && (forall i :: 0 <= i < |s| ==> s[i].count > 0)
  }

  /** How often the map counts txid. */
  function CountOf(s: seq<ViewCount>, txid: TxId): nat {
    if s == [] then 0
    else CountOf(s[..|s| - 1], txid) + if s[|s| - 1].txid == txid then s[|s| - 1].count else 0
  }

  lemma {:induction false} CountOfConcat(a: seq<ViewCount>, b: seq<ViewCount>, t: TxId)
    ensures CountOf(a + b, t) == CountOf(a, t) + CountOf(b, t)
  {
    if b == [] {
      assert a + b == a;
    } else {
      assert (a + b)[..|a + b| - 1] == a + b[..|b| - 1];
      CountOfConcat(a, b[..|b| - 1], t);
    }
  }

  lemma {:induction false} CountOfAt(s: seq<ViewCount>, i: nat, t: TxId)
    requires i < |s|
    ensures CountOf(s, t) == CountOf(s[..i], t) + (if s[i].txid == t then s[i].count else 0) + CountOf(s[i + 1..], t)
  {
    assert s == s[..i] + [s[i]] + s[i + 1..];
    CountOfConcat(s[..i] + [s[i]], s[i + 1..], t);
    CountOfConcat(s[..i], [s[i]], t);
    assert [s[i]][..0] == [];
  }

  lemma {:induction false} LowerViewUnique(s: seq<ViewCount>, txid: TxId, i: nat)
    requires Ascending(s) && i <= |s|
    requires i > 0 ==> s[i - 1].txid < txid
    requires i < |s| ==> s[i].txid >= txid
    ensures i == LowerView(s, txid)
  {}

  /** What is counted is found. */
  lemma {:induction false} CountedIsFound(s: seq<ViewCount>, txid: TxId)
    requires Ascending(s) && CountOf(s, txid) > 0
    ensures HasView(s, txid) && s[0].txid <= txid
  {
    var i := EntryOf(s, txid);
    LowerViewUnique(s, txid, i);
  }

  lemma {:induction false} EntryOf(s: seq<ViewCount>, txid: TxId) returns (i: nat)
    requires CountOf(s, txid) > 0
    ensures i < |s| && s[i].txid == txid
  {
    if s[|s| - 1].txid == txid {
      i := |s| - 1;
    } else {
      i := EntryOf(s[..|s| - 1], txid);
    }
  }

  lemma {:induction false} CountAdded(s: seq<ViewCount>, txid: TxId, t: TxId)
    ensures CountOf(AddView(s, txid), t) == CountOf(s, t) + if t == txid then 1 else 0
  {
    hide CountOf, LowerView;
    var i, s' := LowerView(s, txid), AddView(s, txid);
    CountOfAt(s', i, t);
    if HasView(s, txid) {
      CountOfAt(s, i, t);
      assert s'[..i] == s[..i] && s'[i + 1..] == s[i + 1..];
    } else {
      CountOfConcat(s[..i], s[i..], t);
      assert s[..i] + s[i..] == s && s'[..i] == s[..i] && s'[i + 1..] == s[i..];
    }
  }

  lemma {:induction false} CountDropped(s: seq<ViewCount>, txid: TxId, t: TxId)
    requires HasView(s, txid) && s[LowerView(s, txid)].count > 0
    ensures CountOf(DropView(s, txid), t) == CountOf(s, t) - if t == txid then 1 else 0
  {
    hide CountOf, LowerView;
    var i, s' := LowerView(s, txid), DropView(s, txid);
    CountOfAt(s, i, t);
    if s[i].count == 1 {
      CountOfConcat(s[..i], s[i + 1..], t);
    } else {
      CountOfAt(s', i, t);
      assert s'[..i] == s[..i] && s'[i + 1..] == s[i + 1..];
    }
  }

  lemma {:induction false} AscendingAdd(s: seq<ViewCount>, txid: TxId)
    requires Ascending(s)
    ensures Ascending(AddView(s, txid))
  {
    hide LowerView;
    var i := LowerView(s, txid);
    if !HasView(s, txid) { AscendingInsert(s, i, txid); }
  }

  lemma {:induction false} AscendingInsert(s: seq<ViewCount>, i: nat, txid: TxId)
    requires Ascending(s) && i <= |s| && (i > 0 ==> s[i - 1].txid < txid) && (i < |s| ==> txid < s[i].txid)
    ensures Ascending(InsertAt(s, i, ViewCount(txid, 1)))
  {
    var s' := InsertAt(s, i, ViewCount(txid, 1));
    forall a | 0 <= a < i ensures s[a].txid < txid { assert a == i - 1 || s[a].txid < s[i - 1].txid; }
    forall a | i <= a < |s| ensures txid < s[a].txid { assert a == i || s[i].txid < s[a].txid; }
    forall a | 0 <= a < |s'| ensures s'[a] == if a < i then s[a] else if a == i then ViewCount(txid, 1) else s[a - 1] {}
  }

  lemma {:induction false} AscendingDrop(s: seq<ViewCount>, txid: TxId)
    requires Ascending(s) && HasView(s, txid) && s[LowerView(s, txid)].count > 0
    ensures Ascending(DropView(s, txid))
  {
    hide LowerView;
  }

  /** view_tx_map_ counts the open views. */
  ghost predicate Counts(s: seq<ViewCount>, views: map<nat, Version>) {
    Ascending(s) && forall t :: CountOf(s, t) == |Viewers(views, t)|
  }

  lemma {:induction false} CountsAdd(s: seq<ViewCount>, views: map<nat, Version>, id: nat, v: Version)
    requires Counts(s, views) && id !in views
    ensures Counts(AddView(s, v.txid), views[id := v])
  {
    hide CountOf, AddView, Ascending;
    AscendingAdd(s, v.txid);
    forall t ensures CountOf(AddView(s, v.txid), t) == |Viewers(views[id := v], t)| {
      CountAdded(s, v.txid, t);
      assert Viewers(views[id := v], t) == Viewers(views, t) + if t == v.txid then {id} else {};
    }
  }

  lemma {:induction false} CountsDrop(s: seq<ViewCount>, views: map<nat, Version>, id: nat)
    requires Counts(s, views) && id in views
    ensures HasView(s, views[id].txid) && s[LowerView(s, views[id].txid)].count > 0
    ensures Counts(DropView(s, views[id].txid), views - {id})
  {
    var txid := views[id].txid;
    assert id in Viewers(views, txid);
    assert CountOf(s, txid) == |Viewers(views, txid)|;
    CountedIsFound(s, txid);
    AscendingDrop(s, txid);
    hide CountOf, DropView, Ascending, HasView;
    forall t ensures CountOf(DropView(s, txid), t) == |Viewers(views - {id}, t)| {
      CountDropped(s, txid, t);
      assert Viewers(views - {id}, t) == Viewers(views, t) - if t == txid then {id} else {};
    }
  }

  /** The first entry is the oldest open view. */
  lemma {:induction false} OldestIsFirst(s: seq<ViewCount>, db: Db)
    requires Counts(s, db.views)
    ensures IsOldest(db, if s == [] then db.committed.txid else s[0].txid)
  {
    forall id | id in db.views ensures s != [] && s[0].txid <= db.views[id].txid {
      var t := db.views[id].txid;
      assert id in Viewers(db.views, t) && CountOf(s, t) == |Viewers(db.views, t)|;
      CountedIsFound(s, t);
    }
    if s != [] {
      CountOfAt(s, 0, s[0].txid);
      assert CountOf(s, s[0].txid) == |Viewers(db.views, s[0].txid)|;
      var id :| id in Viewers(db.views, s[0].txid);
    }
  }
}
