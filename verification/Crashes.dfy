/** Crashes: what the file holds when the process dies, and which version Load then finds. */
module Crashes {
  import opened Nodes
  import opened Trees
  import opened Pagers
  import opened BTrees
  import opened Transactions
  import opened TxManagers
  import opened Metas

  /**
   * What a crash can leave of the pages mapped from the file, run[0] being the last sync. A page that was the same
   * all along is what it was; a page written since may hold anything.
   */
  ghost predicate CrashImage(run: seq<Db>, image: map<PageId, Page>) {
    run != [] && forall id :: Untouched(run, id) ==> id in image && image[id] == run[0].pages[id]
  }

  ghost predicate Untouched(run: seq<Db>, id: PageId) {
    run != [] && id in run[0].pages && forall i :: 0 <= i < |run| ==> HasPage(run[i], id, run[0].pages[id])
  }

  ghost predicate HasPage(db: Db, id: PageId, page: Page) { id in db.pages && db.pages[id] == page }

  ghost predicate NoCommit(actions: seq<Action>) { forall i :: 0 <= i < |actions| ==> !actions[i].Commit? }

  /** Without a commit the committed version stays. */
  lemma {:induction false} SameCommitted(run: seq<Db>, actions: seq<Action>, i: nat)
    requires Run(run, actions) && NoCommit(actions) && i < |run|
    ensures run[i].committed == run[0].committed
  {
    if i > 0 {
      SameCommitted(run, actions, i - 1);
      assert Next(run[i - 1], actions[i - 1], run[i]) && !actions[i - 1].Commit?;
    }
  }

  /** A store that has the pages of a tree as another store has them holds the tree. */
  lemma {:induction false} StoredElsewhere(p: map<PageId, Page>, p': map<PageId, Page>, v: Version)
    requires Stored(p, v) && SameOn(p, p', PagesOf(v.tree))
    ensures Stored(p', v)
  {
    if v.tree.Some? { InStoreFrame(p, p', v.tree.value); }
  }

  /** Whatever has happened since the last sync but a commit, a crash leaves the committed version whole. */
  lemma {:induction false} CommittedSurvives(run: seq<Db>, actions: seq<Action>, image: map<PageId, Page>)
    requires Run(run, actions) && Inv(run[0]) && NoCommit(actions) && CrashImage(run, image)
    ensures Stored(image, run[0].committed)
  {
    hide Fine, InStore, Bag, Next;
    var v := run[0].committed;
    FineStored(run[0], v);
    forall id | id in PagesOf(v.tree) && id in run[0].pages ensures id in image && image[id] == run[0].pages[id] {
      forall i | 0 <= i < |run| ensures HasPage(run[i], id, run[0].pages[id]) {
        InvRun(run, actions, i);
        SameCommitted(run, actions, i);
        FineStored(run[i], v);
        SamePages(run[0].pages, run[i].pages, v.tree.value, id);
      }
      assert Untouched(run, id);
    }
    StoredElsewhere(run[0].pages, image, v);
  }

  /** The meta a commit publishes describes its version. */
  ghost predicate Describes(meta: MetaStruct, v: Version) { meta.txid == v.txid && IsRoot(meta.userRoot, v.tree) }

  /** Where a crash can come. */
  datatype Moment =
    | BeforeSave                  // any time up to the write of the meta page, WriteAllDirtyPages included
    | DuringSave(torn: MetaSlot)  // pages are synced, the meta page is being written, or has been

  /** What the file holds after the crash. last: the pages as synced. */
  ghost predicate AfterCrash(m: Moment, run: seq<Db>, file: seq<MetaSlot>, cur: nat, meta': MetaStruct,
                             file': seq<MetaSlot>, image: map<PageId, Page>)
    requires |file| == 2 && cur < 2
  {
    match m
    case BeforeSave => file' == file && CrashImage(run, image)
    case DuringSave(t) => Torn(file[1 - cur], Whole(meta'), t) && file' == file[1 - cur := t]
                          && run != [] && image == run[|run| - 1].pages
  }

  /** A crash between the last sync and the end of a commit whose pages, at the end of the run, hold version v'. */
  lemma {:induction false} CrashWhileWriting(m: Moment, run: seq<Db>, actions: seq<Action>,
                                             file: seq<MetaSlot>, cur: nat, meta: MetaStruct,
                                             meta': MetaStruct, v': Version, file': seq<MetaSlot>,
                                             image: map<PageId, Page>)
    returns (picked: nat)
    requires Run(run, actions) && Inv(run[0]) && NoCommit(actions)
    requires Current(file, cur, meta) && Describes(meta, run[0].committed)
    requires Describes(meta', v') && v'.txid == run[0].committed.txid + 1 && Stored(run[|run| - 1].pages, v')
    requires AfterCrash(m, run, file, cur, meta', file', image)
    ensures |file'| == 2 && picked < 2 && forall i :: IsNewest(file', i) <==> i == picked
    ensures Current(file', picked, file'[picked].meta)
    ensures || (file'[picked] == Whole(meta') && m == DuringSave(Whole(meta')) && Stored(image, v'))
            || (file'[picked] == Whole(meta) && m != DuringSave(Whole(meta')) && Stored(image, run[0].committed))
  {
    hide Fine, InStore, Bag, Next, Run, CrashImage, IsRoot, Stored;
    var last := |run| - 1;
    picked := cur;
    match m {
      case BeforeSave =>
        CommittedSurvives(run, actions, image);
      case DuringSave(t) =>
        TornWrite(file, cur, meta, meta', t);
        if t == Whole(meta') { picked := 1 - cur; }
        RunSize(run, actions);
        InvRun(run, actions, last);
        SameCommitted(run, actions, last);
        FineStored(run[last], run[0].committed);
    }
    CurrentIsNewest(file', picked, file'[picked].meta, 0);
    CurrentIsNewest(file', picked, file'[picked].meta, 1);
  }

  lemma {:induction false} RunSize(run: seq<Db>, actions: seq<Action>)
    requires Run(run, actions)
    ensures |run| == |actions| + 1
  {}

  /** The pages a commit writes before it publishes are one more write of the transaction. */
  lemma {:induction false} CommitWritesFirst(db: Db, v: Version, db': Db)
    requires Next(db, Action.Commit(v), db')
    ensures Next(db, Write, db.(pages := db'.pages)) && Stored(db'.pages, v)
  {}

  /** The state a commit has written and not yet published. */
  ghost function Written(db: Db, db': Db): Db { db.(pages := db'.pages) }

  /**
   * Crash atomicity of commit. run: everything since the last sync, without a commit; then a commit of v', which
   * writes its pages and the free list, syncs, and writes the meta page. Load finds the old version or the new one,
   * the new one only when its meta page was written completely; every page reachable from the version found is
   * intact; and the next commit starts from the same condition.
   */
  lemma {:induction false} CrashAtomicity(m: Moment, run: seq<Db>, actions: seq<Action>, v': Version, db': Db,
                                          file: seq<MetaSlot>, cur: nat, meta: MetaStruct, meta': MetaStruct,
                                          file': seq<MetaSlot>, image: map<PageId, Page>)
    returns (picked: nat)
    requires Run(run, actions) && Inv(run[0]) && NoCommit(actions)
    requires Next(run[|run| - 1], Action.Commit(v'), db')
    requires Current(file, cur, meta) && Describes(meta, run[0].committed) && Describes(meta', v')
    requires AfterCrash(m, run + [Written(run[|run| - 1], db')], file, cur, meta', file', image)
    ensures |file'| == 2 && picked < 2 && forall i :: IsNewest(file', i) <==> i == picked
    ensures Current(file', picked, file'[picked].meta)
    ensures || (file'[picked] == Whole(meta') && m == DuringSave(Whole(meta')) && Stored(image, v'))
            || (file'[picked] == Whole(meta) && m != DuringSave(Whole(meta')) && Stored(image, run[0].committed))
    ensures Inv(db') && db'.committed == v' && db'.pages == Written(run[|run| - 1], db').pages
  {
    hide Inv, Next, CrashImage, IsRoot, Stored, AfterCrash, Current, Torn, IsNewest, Run, NoCommit;
    var last := |run| - 1;
    RunSize(run, actions);
    InvRun(run, actions, last);
    InvNext(run[last], Action.Commit(v'), db');
    SameCommitted(run, actions, last);
    CommitWritesFirst(run[last], v', db');
    CommitIsOfNext(run[last], v', db');
    RunOneMore(run, actions, Written(run[last], db'));
    picked := CrashWhileWriting(m, run + [Written(run[last], db')], actions + [Write], file, cur, meta, meta', v',
                                file', image);
  }

  lemma {:induction false} CommitIsOfNext(db: Db, v: Version, db': Db)
    requires Next(db, Action.Commit(v), db')
    ensures v.txid == db.committed.txid + 1 && db'.committed == v
  {}

  /** A run goes on with a write. */
  lemma {:induction false} RunOneMore(run: seq<Db>, actions: seq<Action>, db: Db)
    requires Run(run, actions) && NoCommit(actions) && run != [] && Next(run[|run| - 1], Write, db)
    ensures Run(run + [db], actions + [Write]) && NoCommit(actions + [Write]) && (run + [db])[0] == run[0]
  {
    hide Next;
    var run', actions' := run + [db], actions + [Write];
    forall i | 0 <= i < |actions'| ensures Next(run'[i], actions'[i], run'[i + 1]) {
      if i < |actions| { assert Next(run[i], actions[i], run[i + 1]); }
    }
  }
}
