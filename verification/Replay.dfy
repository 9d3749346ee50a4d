/** logger.cpp: recovery replays the write-ahead log, and what any prefix of a log recovers to. */
module Replay {
  import opened Order
  import opened Nodes
  import opened Pagers

  /** A record of the log as bytes, as wal::Reader returns it. */
  type Record = seq<Byte>

  const WAL_TXID: Byte := 0       // LogType
  const BEGIN: Byte := 1
  const ROLLBACK: Byte := 2
  const COMMIT: Byte := 3
  const PUT_BUCKET: Byte := 5
  const PUT: Byte := 6
  const DELETE: Byte := 7

  const USER_ROOT: Record := [255, 255, 255, 255]  // kUserRootBucketId

  /** A change of the user bucket. */
  datatype Op = Put(key: Key, value: Value, isBucket: bool) | Delete(key: Key)

  /** A transaction as the log shows it: its changes, and whether it ended with a commit or a rollback. */
  datatype Tx = Tx(ops: seq<Op>, committed: bool)

  // ----- writing

  /** The first n bytes of x, least significant first. */
  function ToBytes(x: nat, n: nat): (r: Record)
    ensures |r| == n
  {
    if n == 0 then [] else [x % 256] + ToBytes(x / 256, n - 1)
  }

  function FromBytes(r: Record): nat {
    if r == [] then 0 else r[0] + 256 * FromBytes(r[1..])
  }

  function Power256(n: nat): nat { if n == 0 then 1 else 256 * Power256(n - 1) }

  lemma {:induction false} BytesRoundTrip(x: nat, n: nat)
    requires x < Power256(n)
    ensures FromBytes(ToBytes(x, n)) == x
  {
    if n > 0 {
      BytesRoundTrip(x / 256, n - 1);
      assert ToBytes(x, n)[1..] == ToBytes(x / 256, n - 1);
    }
  }

  /** AppendWalTxIdLog */
  function TxIdRecord(txid: TxId): Record { [WAL_TXID] + ToBytes(txid, 8) }

  /** AppendPutLog, AppendDeleteLog: a header record, then the key and the value as records of their own. */
  function OpLog(op: Op): seq<Record> {
    match op
    case Put(key, value, isBucket) => [[if isBucket then PUT_BUCKET else PUT] + USER_ROOT, key, value]
    case Delete(key) => [[DELETE] + USER_ROOT, key]
  }

  function OpsLog(ops: seq<Op>): seq<Record> {
    if ops == [] then [] else OpLog(ops[0]) + OpsLog(ops[1..])
  }

  function TxLog(tx: Tx): seq<Record> {
    [[BEGIN]] + OpsLog(tx.ops) + [[if tx.committed then COMMIT else ROLLBACK]]
  }

  function TxsLog(txs: seq<Tx>): seq<Record> {
    if txs == [] then [] else TxLog(txs[0]) + TxsLog(txs[1..])
  }

  /** The log written since the last checkpoint, which left txid in the meta page. */
  function LogOf(txid: TxId, txs: seq<Tx>): seq<Record> { [TxIdRecord(txid)] + TxsLog(txs) }

  // ----- what should be recovered

  function ApplyAll<S>(apply: (S, Op) -> S, db: S, ops: seq<Op>): S {
    if ops == [] then db else ApplyAll(apply, apply(db, ops[0]), ops[1..])
  }

  /** The database after those transactions whose commit record is among the first n records. */
  function After<S>(apply: (S, Op) -> S, db: S, txs: seq<Tx>, n: nat): S
    decreases |txs|
  {
    if txs == [] || n < |TxLog(txs[0])| then db
    else After(apply, if txs[0].committed then ApplyAll(apply, db, txs[0].ops) else db, txs[1..], n - |TxLog(txs[0])|)
  }

  /** How many transactions have their commit record among the first n records. */
  function Commits(txs: seq<Tx>, n: nat): nat
    decreases |txs|
  {
    if txs == [] || n < |TxLog(txs[0])| then 0
    else (if txs[0].committed then 1 else 0) + Commits(txs[1..], n - |TxLog(txs[0])|)
  }

  // ----- reading

  /** Recover's variables; failed: an exception was thrown, or an assert has failed. */
  datatype State<S> = State(db: S, txid: TxId, tx: Option<S>, init: bool, end: bool, failed: bool)

  /** What one turn of the loop does. rest: the records it leaves. */
  function Turn<S>(apply: (S, Op) -> S, log: seq<Record>, st: State<S>): (r: (State<S>, seq<Record>))
    requires log != [] && log[0] != []
    ensures |r.1| < |log|
  {
    var record, rest := log[0], log[1..];
    var t := record[0];
    if t == WAL_TXID then
      if st.init then (st.(failed := true), rest)
      else (st.(init := true, end := st.txid > FromBytes(record[1..])), rest)
    else if !st.init && t <= DELETE then (st.(failed := true), rest)
    else if t == BEGIN then
      if st.tx.Some? then (st.(failed := true), rest) else (st.(tx := Some(st.db)), rest)
    else if t == ROLLBACK then
      if st.tx.None? then (st.(failed := true), rest) else (st.(tx := None), rest)
    else if t == COMMIT then
      if st.tx.None? then (st.(failed := true), rest)
      else (st.(db := st.tx.value, txid := st.txid + 1, tx := None), rest)
    else if t == PUT || t == PUT_BUCKET || t == DELETE then
      if record[1..] != USER_ROOT || st.tx.None? then (st.(failed := true), rest)
      else if rest == [] then (st.(end := true), rest)
      else if t == DELETE then (st.(tx := Some(apply(st.tx.value, Delete(rest[0])))), rest[1..])
      else if |rest| == 1 then (st.(end := true), [])
      else (st.(tx := Some(apply(st.tx.value, Put(rest[0], rest[1], t == PUT_BUCKET)))), rest[2..])
    else if t > DELETE then (st, rest)
    else (st.(failed := true), rest)  // kSubBucket: not part of this model
  }

  /** The whole loop. */
  function Consume<S>(apply: (S, Op) -> S, log: seq<Record>, st: State<S>): State<S>
    decreases |log|
  {
    if st.end || st.failed || log == [] || log[0] == [] then st
    else
      var r := Turn(apply, log, st);
      Consume(apply, r.1, r.0)
  }

  function Start<S>(db: S, txid: TxId): State<S> { State(db, txid, None, false, false, false) }

  /** Recover: the open transaction, if there is one at the end, is rolled back. */
  method Recover<S>(log: seq<Record>, db0: S, txid0: TxId, apply: (S, Op) -> S) returns (ok: bool, db: S, txid: TxId)
    ensures var r := Consume(apply, log, Start(db0, txid0)); ok == !r.failed && (ok ==> db == r.db && txid == r.txid)
  {
    db, txid := db0, txid0;
    var tx: Option<S>, end, init, reader := None, false, false, log;
    while true
      invariant Consume(apply, reader, State(db, txid, tx, init, end, false)) == Consume(apply, log, Start(db0, txid0))
      decreases |reader|, !end
    {
      if end { break; }
      if reader == [] || reader[0] == [] { break; }
      var record := reader[0];
      var type_ := record[0];
      reader := reader[1..];
      if type_ == WAL_TXID {
        if init { return false, db, txid; }
        if txid > FromBytes(record[1..]) { end := true; }
        init := true;
      } else if type_ == BEGIN {
        if !init || tx.Some? { return false, db, txid; }
        tx := Some(db);
      } else if type_ == ROLLBACK {
        if !init || tx.None? { return false, db, txid; }
        tx := None;
      } else if type_ == COMMIT {
        if !init || tx.None? { return false, db, txid; }
        db, txid, tx := tx.value, txid + 1, None;
      } else if type_ == PUT || type_ == PUT_BUCKET || type_ == DELETE {
        if !init || record[1..] != USER_ROOT || tx.None? { return false, db, txid; }
        if reader == [] {
          end := true;
        } else {
          var key := reader[0];
          reader := reader[1..];
          if type_ == DELETE {
            tx := Some(apply(tx.value, Delete(key)));
          } else if reader == [] {
            end := true;
          } else {
            var value := reader[0];
            reader := reader[1..];
            tx := Some(apply(tx.value, Put(key, value, type_ == PUT_BUCKET)));
          }
        }
      } else if type_ < DELETE {
        return false, db, txid;  // kSubBucket: not part of this model
      }
    }
    ok := true;
  }

  // ----- a prefix recovers what it commits

  ghost predicate Idle<S>(st: State<S>) { st.tx.None? && st.init && !st.end && !st.failed }

  ghost predicate InTx<S>(st: State<S>) { st.tx.Some? && st.init && !st.end && !st.failed }

  /** All changes of a transaction are read: its copy of the database has them. */
  lemma {:induction false} WholeOps<S>(apply: (S, Op) -> S, ops: seq<Op>, rest: seq<Record>, st: State<S>)
    requires InTx(st)
    ensures Consume(apply, OpsLog(ops) + rest, st)
         == Consume(apply, rest, st.(tx := Some(ApplyAll(apply, st.tx.value, ops))))
  {
    if ops == [] {
      assert [] + rest == rest;
    } else {
      var log, tail := OpsLog(ops) + rest, OpsLog(ops[1..]) + rest;
      assert log == OpLog(ops[0]) + tail;
      OneOp(apply, ops[0], tail, st);
      WholeOps(apply, ops[1..], rest, st.(tx := Some(apply(st.tx.value, ops[0]))));
    }
  }

  lemma {:induction false} OneOp<S>(apply: (S, Op) -> S, op: Op, tail: seq<Record>, st: State<S>)
    requires InTx(st)
    ensures Consume(apply, OpLog(op) + tail, st) == Consume(apply, tail, st.(tx := Some(apply(st.tx.value, op))))
  {
    var log := OpLog(op) + tail;
    assert log[0][1..] == USER_ROOT;
    assert log[1..][0] == op.key;
    if op.Put? {
      assert log[1..][1] == op.value && log[1..][2..] == tail;
    } else {
      assert log[1..][1..] == tail;
    }
  }

  /** Part of the changes is read: the database is as it was. */
  lemma {:induction false} PartOfOps<S>(apply: (S, Op) -> S, ops: seq<Op>, n: nat, st: State<S>)
    requires InTx(st) && n <= |OpsLog(ops)|
    ensures var r := Consume(apply, OpsLog(ops)[..n], st); !r.failed && r.db == st.db && r.txid == st.txid
  {
    if ops != [] && n > 0 {
      var first, tail := OpLog(ops[0]), OpsLog(ops[1..]);
      if n >= |first| {
        assert OpsLog(ops)[..n] == first + tail[..n - |first|];
        OneOp(apply, ops[0], tail[..n - |first|], st);
        PartOfOps(apply, ops[1..], n - |first|, st.(tx := Some(apply(st.tx.value, ops[0]))));
      } else {
        var log := OpsLog(ops)[..n];
        assert log[0] == first[0] && log[0][1..] == USER_ROOT;
        assert n == 2 ==> log[1..] == [first[1]];
        assert n == 1 ==> log[1..] == [];
      }
    }
  }

  lemma {:induction false} WholeTx<S>(apply: (S, Op) -> S, tx: Tx, rest: seq<Record>, st: State<S>)
    requires Idle(st)
    ensures Consume(apply, TxLog(tx) + rest, st)
         == Consume(apply, rest,
                    if tx.committed then st.(db := ApplyAll(apply, st.db, tx.ops), txid := st.txid + 1) else st)
  {
    var log := TxLog(tx) + rest;
    var last := [if tx.committed then COMMIT else ROLLBACK];
    assert log[0] == [BEGIN] && log[1..] == OpsLog(tx.ops) + ([last] + rest);
    WholeOps(apply, tx.ops, [last] + rest, st.(tx := Some(st.db)));
    assert ([last] + rest)[0] == last && ([last] + rest)[1..] == rest;
  }

  lemma {:induction false} PartOfTx<S>(apply: (S, Op) -> S, tx: Tx, n: nat, st: State<S>)
    requires Idle(st) && n < |TxLog(tx)|
    ensures var r := Consume(apply, TxLog(tx)[..n], st); !r.failed && r.db == st.db && r.txid == st.txid
  {
    if n > 0 {
      var log := TxLog(tx)[..n];
      assert log[0] == [BEGIN] && log[1..] == OpsLog(tx.ops)[..n - 1];
      PartOfOps(apply, tx.ops, n - 1, st.(tx := Some(st.db)));
    }
  }

  lemma {:induction false} PartOfTxs<S>(apply: (S, Op) -> S, txs: seq<Tx>, n: nat, st: State<S>)
    requires Idle(st) && n <= |TxsLog(txs)|
    ensures var r := Consume(apply, TxsLog(txs)[..n], st);
      !r.failed && r.db == After(apply, st.db, txs, n) && r.txid == st.txid + Commits(txs, n)
    decreases |txs|
  {
    if txs != [] {
      var first, tail := TxLog(txs[0]), TxsLog(txs[1..]);
      if n < |first| {
        assert TxsLog(txs)[..n] == first[..n];
        PartOfTx(apply, txs[0], n, st);
      } else {
        assert TxsLog(txs)[..n] == first + tail[..n - |first|];
        WholeTx(apply, txs[0], tail[..n - |first|], st);
        var st' := if txs[0].committed then st.(db := ApplyAll(apply, st.db, txs[0].ops), txid := st.txid + 1) else st;
        PartOfTxs(apply, txs[1..], n - |first|, st');
      }
    }
  }

  /**
   * Recovery from any record-level prefix of the log never throws. Its result is the base with exactly those
   * transactions applied whose commit record is in the prefix, in order; the txid has grown by their number.
   */
  lemma {:induction false} PrefixRecovers<S>(apply: (S, Op) -> S, db: S, txid: TxId, txs: seq<Tx>, n: nat)
    requires n <= |LogOf(txid, txs)| && txid < Power256(8)
    ensures var r := Consume(apply, LogOf(txid, txs)[..n], Start(db, txid));
      && !r.failed
      && r.db == After(apply, db, txs, if n == 0 then 0 else n - 1)
      && r.txid == txid + Commits(txs, if n == 0 then 0 else n - 1)
  {
    hide TxIdRecord, TxsLog, FromBytes, ToBytes, Power256;
    if n > 0 {
      var log := LogOf(txid, txs)[..n];
      assert log[0] == TxIdRecord(txid) && log[1..] == TxsLog(txs)[..n - 1];
      ReadTxId(txid);
      PartOfTxs(apply, txs, n - 1, Start(db, txid).(init := true));
    }
  }

  lemma {:induction false} ReadTxId(txid: TxId)
    requires txid < Power256(8)
    ensures TxIdRecord(txid) != [] && TxIdRecord(txid)[0] == WAL_TXID && FromBytes(TxIdRecord(txid)[1..]) == txid
  {
    BytesRoundTrip(txid, 8);
    assert TxIdRecord(txid)[1..] == ToBytes(txid, 8);
  }

  /**
   * A crash after a checkpoint saved its base and before it reset the log: the base is newer than the log's first
   * record, so the log is skipped and nothing is applied twice.
   */
  lemma {:induction false} CheckpointSkips<S>(apply: (S, Op) -> S, db: S, txid: TxId, txs: seq<Tx>, n: nat, base: TxId)
    requires n <= |LogOf(txid, txs)| && txid < Power256(8) && base > txid
    ensures var r := Consume(apply, LogOf(txid, txs)[..n], Start(db, base)); !r.failed && r.db == db && r.txid == base
  {
    hide TxIdRecord, TxsLog, FromBytes, ToBytes, Power256;
    if n > 0 {
      var log := LogOf(txid, txs)[..n];
      assert log[0] == TxIdRecord(txid);
      ReadTxId(txid);
    }
  }

  // ----- the records as bytes

  /** A log of one transaction with one change, read from the base it starts at or an older one. */
  lemma {:induction false} OneTxLog<S>(apply: (S, Op) -> S, db: S, txid: TxId, base: seq<Byte>, tx: Tx)
    requires |base| == 8 && txid <= FromBytes(base)
    ensures var r := Consume(apply, [[0] + base] + TxLog(tx), Start(db, txid));
      !r.failed && r.tx.None? && r.db == (if tx.committed then ApplyAll(apply, db, tx.ops) else db)
      && r.txid == if tx.committed then txid + 1 else txid
  {
    hide TxLog, FromBytes;
    var log := [[0] + base] + TxLog(tx);
    assert log[0] == [0] + base && log[0][1..] == base && log[1..] == TxLog(tx) + [];
    var st := Start(db, txid).(init := true);
    WholeTx(apply, tx, [], st);
  }

  /**
   * The log as logger.cpp and log_type.h lay it out, byte by byte: type 0 and the txid, 1 for begin, 5 or 6 for a put
   * into the user bucket with the key and the value after it, 7 for a delete with the key after it, 3 for commit and 2
   * for rollback. Whatever key and value are, a committed change is in the database after recovery, once, and nothing
   * else is; a change that was rolled back is not.
   */
  lemma {:induction false} BytesRecover<S>(apply: (S, Op) -> S, db: S, txid: TxId, base: seq<Byte>, key: Key,
                                           value: Value)
    requires |base| == 8 && txid <= FromBytes(base)
    ensures var put := Consume(apply, [[0] + base, [1], [6, 255, 255, 255, 255], key, value, [3]], Start(db, txid));
      !put.failed && put.db == apply(db, Put(key, value, false)) && put.txid == txid + 1
    ensures var bucket := Consume(apply, [[0] + base, [1], [5, 255, 255, 255, 255], key, value, [3]], Start(db, txid));
      !bucket.failed && bucket.db == apply(db, Put(key, value, true)) && bucket.txid == txid + 1
    ensures var delete := Consume(apply, [[0] + base, [1], [7, 255, 255, 255, 255], key, [3]], Start(db, txid));
      !delete.failed && delete.db == apply(db, Delete(key)) && delete.txid == txid + 1
    ensures var undone := Consume(apply, [[0] + base, [1], [6, 255, 255, 255, 255], key, value, [2]], Start(db, txid));
      !undone.failed && undone.db == db && undone.txid == txid
  {
    hide Consume, FromBytes;
    OneChange(apply, db, txid, base, Put(key, value, false), true);
    OneChange(apply, db, txid, base, Put(key, value, true), true);
    OneChange(apply, db, txid, base, Delete(key), true);
    OneChange(apply, db, txid, base, Put(key, value, false), false);
    assert [[0] + base] + ([[1]] + [[6, 255, 255, 255, 255], key, value] + [[3]])
        == [[0] + base, [1], [6, 255, 255, 255, 255], key, value, [3]];
    assert [[0] + base] + ([[1]] + [[5, 255, 255, 255, 255], key, value] + [[3]])
        == [[0] + base, [1], [5, 255, 255, 255, 255], key, value, [3]];
    assert [[0] + base] + ([[1]] + [[7, 255, 255, 255, 255], key] + [[3]])
        == [[0] + base, [1], [7, 255, 255, 255, 255], key, [3]];
    assert [[0] + base] + ([[1]] + [[6, 255, 255, 255, 255], key, value] + [[2]])
        == [[0] + base, [1], [6, 255, 255, 255, 255], key, value, [2]];
  }

  lemma {:induction false} OneChange<S>(apply: (S, Op) -> S, db: S, txid: TxId, base: seq<Byte>, op: Op,
                                        committed: bool)
    requires |base| == 8 && txid <= FromBytes(base)
    ensures var header: Record := [if op.Delete? then 7 else if op.isBucket then 5 else 6, 255, 255, 255, 255];
      var change := if op.Delete? then [header, op.key] else [header, op.key, op.value];
      var r := Consume(apply, [[0] + base] + ([[1]] + change + [[if committed then 3 else 2]]), Start(db, txid));
      !r.failed && r.db == (if committed then apply(db, op) else db) && r.txid == if committed then txid + 1 else txid
  {
    hide FromBytes, Consume;
    var tx := Tx([op], committed);
    OneTxLog(apply, db, txid, base, tx);
    var header: Record := [if op.Delete? then 7 else if op.isBucket then 5 else 6, 255, 255, 255, 255];
    assert header == [header[0]] + USER_ROOT;
    assert OpLog(op) == if op.Delete? then [header, op.key] else [header, op.key, op.value];
    assert OpsLog([]) == [] && [op][1..] == [] && OpsLog([op]) == OpLog(op) + [] == OpLog(op);
    assert TxLog(tx) == [[1]] + OpLog(op) + [[if committed then 3 else 2]];
    assert ApplyAll(apply, db, [op]) == ApplyAll(apply, apply(db, op), []) == apply(db, op);
  }

  /** Records that make recovery throw, wherever they come and whatever follows. */
  lemma {:induction false} Unrecoverable<S>(apply: (S, Op) -> S, st: State<S>, record: Record, rest: seq<Record>)
    requires !st.end && !st.failed && record != []
    requires || (!st.init && 1 <= record[0] <= 7)                        // no txid record first
             || (st.init && record[0] == 0)                              // a second one
             || (st.init && st.tx.Some? && record[0] == 1)               // begin within a transaction
             || (st.init && st.tx.None? && record[0] in {2, 3})          // rollback or commit without one
    ensures Consume(apply, [record] + rest, st).failed
  {
    assert ([record] + rest)[0] == record && ([record] + rest)[1..] == rest;
  }
}
