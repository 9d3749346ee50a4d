/** Local edits of a token sequence: what they do to its order and to the map it denotes. */
module Tokens {
  import opened Order
  import opened Nodes
  import opened Trees

  lemma {:induction false} LtTransitive(a: Key, b: Key, c: Key)
    ensures Lt(a, b) && Lt(b, c) ==> Lt(a, c)
    ensures Le(a, b) && Lt(b, c) ==> Lt(a, c)
    ensures Lt(a, b) && Le(b, c) ==> Lt(a, c)
    ensures Le(a, b) && Le(b, c) ==> Le(a, c)
    ensures Lt(a, b) <==> !Le(b, a)
    ensures Le(a, b) <==> Lt(a, b) || a == b
    ensures !Lt(a, a)
  {
    assert COMPARATOR(a, b) == Equal <==> a == b;
    assert COMPARATOR(b, c) == Equal <==> b == c;
    assert COMPARATOR(a, c) == Equal <==> a == c;
    assert COMPARATOR(a, b) == Less && COMPARATOR(b, c) == Less ==> COMPARATOR(a, c) == Less;
  }

  /** A key of the map stands somewhere among the tokens. */
  lemma {:induction false} TokenOfKey(s: seq<Tok>, k: Key) returns (i: nat)
    requires k in MapOf(s)
    ensures i < |s| && s[i].Item? && s[i].rec.key == k
  {
    var n := |s| - 1;
    if s[n].Item? && s[n].rec.key == k {
      i := n;
    } else {
      i := TokenOfKey(s[..n], k);
    }
  }

  /** The tokens up to one that is below k are below k. */
  lemma {:induction false} BelowDown(s: seq<Tok>, i: nat, k: Key)
    requires Ordered(s) && i < |s| && Below(s[i], k)
    ensures AllBelow(s[..i + 1], k)
  {
    forall j | 0 <= j <= i ensures Below(s[j], k) {
      if j < i {
        assert TokLt(s[j], s[i]);
        LtTransitive(TokKey(s[j]), TokKey(s[i]), k);
      }
    }
  }

  /** The tokens from one that is above k are above k. */
  lemma {:induction false} AboveUp(s: seq<Tok>, i: nat, k: Key)
    requires Ordered(s) && i < |s| && Above(s[i], k)
    ensures AllAbove(s[i..], k)
  {
    forall j | i <= j < |s| ensures Above(s[j], k) {
      if i < j {
        assert TokLt(s[i], s[j]);
        LtTransitive(k, TokKey(s[i]), TokKey(s[j]));
      }
    }
  }

  lemma {:induction false} OrderedCut(a: seq<Tok>, b: seq<Tok>)
    ensures Ordered(a + b) <==>
      Ordered(a) && Ordered(b) && forall i, j :: 0 <= i < |a| && 0 <= j < |b| ==> TokLt(a[i], b[j])
  {
    var s := a + b;
    if Ordered(s) {
      forall i, j | 0 <= i < j < |a| ensures TokLt(a[i], a[j]) { assert s[i] == a[i] && s[j] == a[j]; }
      forall i, j | 0 <= i < j < |b| ensures TokLt(b[i], b[j]) {
        assert s[|a| + i] == b[i] && s[|a| + j] == b[j];
      }
      forall i, j | 0 <= i < |a| && 0 <= j < |b| ensures TokLt(a[i], b[j]) {
        assert s[i] == a[i] && s[|a| + j] == b[j];
      }
    }
  }

  /** Tokens can be dropped. */
  lemma {:induction false} OrderedDrop(a: seq<Tok>, b: seq<Tok>, c: seq<Tok>)
    requires Ordered(a + b + c)
    ensures Ordered(a + c)
  {
    OrderedCut(a + b, c);
    OrderedCut(a, b);
    OrderedCut(a, c);
    forall i, j | 0 <= i < |a| && 0 <= j < |c| ensures TokLt(a[i], c[j]) { assert (a + b)[i] == a[i]; }
  }

  /** A token fits where everything left of it is smaller and everything right of it is greater. */
  lemma {:induction false} OrderedPlace(a: seq<Tok>, x: Tok, b: seq<Tok>)
    requires Ordered(a + b)
    requires forall i :: 0 <= i < |a| ==> TokLt(a[i], x)
    requires forall i :: 0 <= i < |b| ==> TokLt(x, b[i])
    ensures Ordered(a + [x] + b)
  {
    OrderedCut(a, b);
    OrderedCut(a, [x]);
    OrderedCut(a + [x], b);
  }

  /** A record fits where it was searched. */
  lemma {:induction false} OrderedInsert(a: seq<Tok>, r: Rec, b: seq<Tok>)
    requires Ordered(a + b) && AllBelow(a, r.key) && AllAbove(b, r.key)
    ensures Ordered(a + [Item(r)] + b)
  {
    OrderedPlace(a, Item(r), b);
  }

  /** Between two neighbouring records fits the key of the second one. */
  lemma {:induction false} OrderedSeparate(a: seq<Tok>, y: Rec, x: Rec, b: seq<Tok>)
    requires Ordered(a + [Item(y)] + ([Item(x)] + b))
    ensures Ordered(a + [Item(y)] + [Sep(x.key)] + ([Item(x)] + b))
  {
    var l, r := a + [Item(y)], [Item(x)] + b;
    OrderedCut(l, r);
    OrderedCut(a, [Item(y)]);
    OrderedCut([Item(x)], b);
    assert l[|a|] == Item(y) && r[0] == Item(x);
    assert TokLt(l[|a|], r[0]);
    forall i | 0 <= i < |l| ensures TokLt(l[i], Sep(x.key)) {
      if i < |a| {
        assert TokLt(a[i], [Item(y)][0]);
        LtTransitive(TokKey(l[i]), y.key, x.key);
      }
    }
    LtTransitive(x.key, x.key, x.key);
    forall i | 0 <= i < |r| ensures TokLt(Sep(x.key), r[i]) {
      if i > 0 {
        assert TokLt([Item(x)][0], b[i - 1]);
        LtTransitive(x.key, TokKey(r[i]), TokKey(r[i]));
      }
    }
    OrderedPlace(l, Sep(x.key), r);
  }

  /** A record can be replaced by another with the same key. */
  lemma {:induction false} OrderedReplace(a: seq<Tok>, r: Rec, r': Rec, b: seq<Tok>)
    requires Ordered(a + [Item(r)] + b) && r'.key == r.key
    ensures Ordered(a + [Item(r')] + b)
  {
    OrderedDrop(a, [Item(r)], b);
    OrderedCut(a + [Item(r)], b);
    OrderedCut(a, [Item(r)]);
    assert [Item(r)][0] == (a + [Item(r)])[|a|];
    OrderedPlace(a, Item(r'), b);
  }

  // ----- the map

  lemma {:induction false} MapOfConcat(a: seq<Tok>, b: seq<Tok>)
    ensures MapOf(a + b) == MapOf(a) + MapOf(b)
  {
    if b == [] {
      assert a + b == a;
    } else {
      MapOfConcat(a, b[..|b| - 1]);
      assert (a + b)[..|a + b| - 1] == a + b[..|b| - 1];
    }
  }

  lemma {:induction false} MapOfOne(x: Tok)
    ensures MapOf([x]) == if x.Item? then map[x.rec.key := x.rec.value] else map[]
  {
    assert [x][..0] == [];
  }

  lemma {:induction false} MapOfKey(s: seq<Tok>, k: Key)
    ensures k in MapOf(s) <==> exists i :: 0 <= i < |s| && s[i].Item? && s[i].rec.key == k
  {
    if s != [] {
      var n := |s| - 1;
      MapOfKey(s[..n], k);
      if k in MapOf(s[..n]) {
        var i :| 0 <= i < n && s[..n][i].Item? && s[..n][i].rec.key == k;
        assert s[i].Item? && s[i].rec.key == k;
      }
      if i :| 0 <= i < |s| && s[i].Item? && s[i].rec.key == k {
        if i < n { assert s[..n][i].rec.key == k; }
      }
    }
  }

  /** A key with everything left of it smaller and everything right of it greater is absent. */
  lemma {:induction false} MapOfAbsent(a: seq<Tok>, k: Key, b: seq<Tok>)
    requires AllBelow(a, k) && AllAbove(b, k)
    ensures k !in MapOf(a) && k !in MapOf(b) && k !in MapOf(a + b)
  {
    LtTransitive(k, k, k);
    MapOfKey(a, k);
    MapOfKey(b, k);
    MapOfConcat(a, b);
  }

  /** Putting a record at its place puts it in the map. */
  lemma {:induction false} MapOfInsert(a: seq<Tok>, r: Rec, b: seq<Tok>)
    requires AllBelow(a, r.key) && AllAbove(b, r.key)
    ensures MapOf(a + [Item(r)] + b) == MapOf(a + b)[r.key := r.value]
  {
    MapOfAbsent(a, r.key, b);
    MapOfConcat(a + [Item(r)], b);
    MapOfConcat(a, [Item(r)]);
    MapOfOne(Item(r));
    MapOfConcat(a, b);
  }

  /** The record at a place is what the map holds at its key, and the rest of the map is the rest. */
  lemma {:induction false} MapOfAt(a: seq<Tok>, r: Rec, b: seq<Tok>)
    requires Ordered(a + [Item(r)] + b)
    ensures r.key in MapOf(a + [Item(r)] + b) && MapOf(a + [Item(r)] + b)[r.key] == r.value
    ensures MapOf(a + b) == MapOf(a + [Item(r)] + b) - {r.key}
  {
    OrderedCut(a + [Item(r)], b);
    OrderedCut(a, [Item(r)]);
    assert [Item(r)][0] == (a + [Item(r)])[|a|];
    LtTransitive(r.key, r.key, r.key);
    assert r.key !in MapOf(a) && r.key !in MapOf(b) by { MapOfKey(a, r.key); MapOfKey(b, r.key); }
    MapOfConcat(a + [Item(r)], b);
    MapOfConcat(a, [Item(r)]);
    MapOfOne(Item(r));
    MapOfConcat(a, b);
  }

  lemma {:induction false} MapOfReplace(a: seq<Tok>, r: Rec, r': Rec, b: seq<Tok>)
    requires Ordered(a + [Item(r)] + b) && r'.key == r.key
    ensures MapOf(a + [Item(r')] + b) == MapOf(a + [Item(r)] + b)[r.key := r'.value]
  {
    MapOfAt(a, r, b);
    OrderedCut(a + [Item(r)], b);
    assert [Item(r)][0] == (a + [Item(r)])[|a|];
    LtTransitive(r.key, r.key, r.key);
    assert r.key !in MapOf(b) by { MapOfKey(b, r.key); }
    MapOfConcat(a + [Item(r')], b);
    MapOfConcat(a, [Item(r')]);
    MapOfConcat(a + [Item(r)], b);
    MapOfConcat(a, [Item(r)]);
    MapOfOne(Item(r));
    MapOfOne(Item(r'));
  }

  /** Separators are not in the map. */
  lemma {:induction false} MapOfSep(a: seq<Tok>, k: Key, b: seq<Tok>)
    ensures MapOf(a + [Sep(k)] + b) == MapOf(a + b)
  {
    MapOfConcat(a + [Sep(k)], b);
    MapOfConcat(a, [Sep(k)]);
    MapOfOne(Sep(k));
    MapOfConcat(a, b);
  }

  // ----- runs of records

  lemma {:induction false} ItemsConcat(a: seq<Rec>, b: seq<Rec>)
    ensures Items(a + b) == Items(a) + Items(b)
  {}

  lemma {:induction false} RegroupRun<T>(p: seq<T>, l: seq<T>, r: seq<T>, q: seq<T>)
    ensures p + (l + r) + q == p + l + (r + q)
  {}

  /** Between two runs of records fits the first key of the second run. */
  lemma {:induction false} Separate(p: seq<Tok>, l: seq<Rec>, r: seq<Rec>, q: seq<Tok>)
    requires Ordered(p + Items(l + r) + q) && l != [] && r != []
    ensures Ordered(p + Items(l) + [Sep(r[0].key)] + (Items(r) + q))
    ensures MapOf(p + Items(l) + [Sep(r[0].key)] + (Items(r) + q)) == MapOf(p + Items(l + r) + q)
  {
    var n := |l| - 1;
    var a, b := p + Items(l[..n]), Items(r[1..]) + q;
    ItemsConcat(l, r);
    RegroupRun(p, Items(l), Items(r), q);
    assert p + Items(l) == a + [Item(l[n])] by {
      assert l == l[..n] + [l[n]];
      ItemsConcat(l[..n], [l[n]]);
    }
    assert Items(r) + q == [Item(r[0])] + b by {
      assert r == [r[0]] + r[1..];
      ItemsConcat([r[0]], r[1..]);
    }
    hide Ordered, Items, MapOf;
    OrderedSeparate(a, l[n], r[0], b);
    MapOfSep(p + Items(l), r[0].key, Items(r) + q);
  }

  /** Two runs of records and the key between them without the key. */
  lemma {:induction false} Unseparate(p: seq<Tok>, l: seq<Rec>, key: Key, r: seq<Rec>, q: seq<Tok>)
    requires Ordered(p + Items(l) + [Sep(key)] + (Items(r) + q))
    ensures Ordered(p + Items(l + r) + q)
    ensures MapOf(p + Items(l + r) + q) == MapOf(p + Items(l) + [Sep(key)] + (Items(r) + q))
  {
    hide Ordered, MapOf;
    ItemsConcat(l, r);
    hide Items;
    RegroupRun(p, Items(l), Items(r), q);
    OrderedDrop(p + Items(l), [Sep(key)], Items(r) + q);
    MapOfSep(p + Items(l), key, Items(r) + q);
  }

  /** Taking a record out of a run takes it out of the map. */
  lemma {:induction false} RemoveFromRun(p: seq<Tok>, recs: seq<Rec>, i: nat, q: seq<Tok>)
    requires Ordered(p + Items(recs) + q) && i < |recs|
    ensures Ordered(p + Items(RemoveAt(recs, i)) + q)
    ensures recs[i].key in MapOf(p + Items(recs) + q)
    ensures MapOf(p + Items(RemoveAt(recs, i)) + q) == MapOf(p + Items(recs) + q) - {recs[i].key}
  {
    var l, x, r := Items(recs[..i]), [Item(recs[i])], Items(recs[i + 1..]);
    assert Items(recs) == l + x + r;
    assert Items(RemoveAt(recs, i)) == l + r;
    hide Ordered, Items, MapOf;
    RegroupOne(p, l, x, r, q);
    RegroupRun(p, l, r, q);
    OrderedDrop(p + l, x, r + q);
    MapOfAt(p + l, recs[i], r + q);
  }

  lemma {:induction false} RegroupOne<T>(p: seq<T>, l: seq<T>, x: seq<T>, r: seq<T>, q: seq<T>)
    ensures p + (l + x + r) + q == p + l + x + (r + q)
  {}

  /** Entering a record into a run where it was searched enters it into the map. */
  lemma {:induction false} InsertIntoRun(p: seq<Tok>, recs: seq<Rec>, i: nat, rec: Rec, q: seq<Tok>)
    requires Ordered(p + Items(recs) + q) && i <= |recs|
    requires AllBelow(p + Items(recs[..i]), rec.key) && AllAbove(Items(recs[i..]) + q, rec.key)
    ensures Ordered(p + Items(InsertAt(recs, i, rec)) + q)
    ensures MapOf(p + Items(InsertAt(recs, i, rec)) + q) == MapOf(p + Items(recs) + q)[rec.key := rec.value]
  {
    var l, x, r := Items(recs[..i]), [Item(rec)], Items(recs[i..]);
    assert Items(recs) == l + r;
    assert Items(InsertAt(recs, i, rec)) == l + x + r;
    hide Ordered, Items, MapOf, AllBelow, AllAbove;
    RegroupOne(p, l, x, r, q);
    RegroupRun(p, l, r, q);
    OrderedInsert(p + l, rec, r + q);
    MapOfInsert(p + l, rec, r + q);
  }

  /** Replacing a record in a run by one with the same key replaces its value in the map. */
  lemma {:induction false} ReplaceInRun(p: seq<Tok>, recs: seq<Rec>, i: nat, rec: Rec, q: seq<Tok>)
    requires Ordered(p + Items(recs) + q) && i < |recs| && rec.key == recs[i].key
    ensures Ordered(p + Items(recs[i := rec]) + q)
    ensures MapOf(p + Items(recs[i := rec]) + q) == MapOf(p + Items(recs) + q)[rec.key := rec.value]
  {
    var l, x, x', r := Items(recs[..i]), [Item(recs[i])], [Item(rec)], Items(recs[i + 1..]);
    assert Items(recs) == l + x + r;
    assert Items(recs[i := rec]) == l + x' + r;
    hide Ordered, Items, MapOf;
    RegroupOne(p, l, x, r, q);
    RegroupOne(p, l, x', r, q);
    OrderedReplace(p + l, recs[i], rec, r + q);
    MapOfReplace(p + l, recs[i], rec, r + q);
  }
}
