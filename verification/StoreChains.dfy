/**
 * The record store keeps its rows chained: whatever whole operations run on it, by whichever transactions and with
 * whatever snapshots, its log stays one that the version machine could have written.
 */
module StoreChains {
  import opened Bytes
  import opened Options
  import opened Visibility
  import opened RecordHeader
  import opened Redo
  import opened StoreLog
  import opened StoreVersions
  import M = Mvcc
  import R = Recovery
  import S = Store

  /** Whoever counts as committed has a Commit record. */
  ghost predicate Truthful(commits: CommitLog, log: seq<Rec>) {
    forall c :: c >= FIRST_USER_TXN && StatusOf(commits, c) == Committed ==> R.HasCommit(log, c)
  }

  const ANY: Reader := (s: seq<byte>) => 0

  // ----- Facts about rows -----

  lemma RowCreator(log: seq<Rec>, rid: RecordId)
    requires StoreHistory(log) && Head(log, rid).Some?
    ensures Head(log, rid).value.xmin >= FIRST_USER_TXN
  {
    S.RowInHeap(log, rid);
    RowMeaning(log, rid);
    hide Row, FromLe, Decode6;
    var t, d := Head(log, rid).value.xmin, Row(log, rid).value[HEADER_SIZE..];
    assert InsertedBy(log, rid, t, d);
    var j :| 0 <= j < |log| && IsInsert(log[j], rid) && log[j].txn == t
             && |log[j].payload.after| >= HEADER_SIZE && log[j].payload.after[HEADER_SIZE..] == d;
    assert StoreRecOk(log[..j], log[j]);
  }

  lemma CommittedRowLinked(log: seq<Rec>, rid: RecordId)
    requires StoreHistory(log) && ChainedLog(log) && Head(log, rid).Some? && R.HasCommit(log, Head(log, rid).value.xmin)
    ensures LinkedRow(log, rid)
  {
    var vs, rids := M.Fold(Versions(log, ANY)), Born(log);
    ChainedIff(log, ANY);
    RowsAreVersions(log, ANY);
    hide Same, Head, Versions, Born, M.LogOk, M.Fold, R.HasCommit, ChainedLog, StoreHistory;
    HeadHas(log, vs, rids, ANY, rid);
    var n := Name(rids, rid);
    HeadIs(log, vs, rids, ANY, n);
    EndsAreEnds(log, ANY, vs[n].xmin);
    M.CommittedLinked(Versions(log, ANY));
    LinkedIff(log, vs, rids, ANY, n);
  }

  /**
   * What a transaction with only linked rows may write: unstamped, linked, its own or committed, and not yet
   * replaced by it.
   */
  lemma WritableChained(log: seq<Rec>, snap: Snapshot, commits: CommitLog, rid: RecordId)
    requires StoreHistory(log) && ChainedLog(log) && CommitChained(log, snap.txnId) && Truthful(commits, log)
    requires S.Writable(Row(log, rid), snap, commits) && snap.txnId != NO_TXN
    ensures InsertChained(log, snap.txnId, rid)
  {
    hide Row, FromLe, Decode6, StoreHistory, ChainedLog, R.HasCommit, LinkedRow;
    var h := DecodeHeader(Row(log, rid).value).value;
    WritableIsUnstamped(h.xmin, h.xmax, snap, commits);
    assert Head(log, rid) == Some(h);
    RowCreator(log, rid);
    assert MayBuildOn(log, snap.txnId, rid);
    if h.xmin != snap.txnId { CommittedRowLinked(log, rid); }
    forall a | Replaces(log, a, rid) ensures Head(log, a).value.xmin != snap.txnId {
      OwnReplacement(log, a, rid, snap.txnId);
    }
  }

  lemma OwnReplacement(log: seq<Rec>, a: RecordId, rid: RecordId, t: TxnId)
    requires CommitChained(log, t) && Replaces(log, a, rid) && Head(log, rid).Some?
    requires Head(log, rid).value.xmax == NO_TXN && t != NO_TXN
    ensures Head(log, a).value.xmin != t
  {
  }

  // ----- One record -----

  /** A record that is neither an insert nor a stamp changes no row. */
  lemma QuietRows(log: seq<Rec>, r: Rec)
    requires StoreHistory(log) && StoreHistory(log + [r])
    requires !r.payload.Insert? && !r.payload.Update? && !r.payload.Delete?
    ensures StoreRecOk(log, r) && forall q :: Row(log + [r], q) == Row(log, q)
  {
    LastOk(log, r);
    hide Row, StoreHistory, StoreRecOk;
    forall q ensures Row(log + [r], q) == Row(log, q) {
      Untouched(log, r, q);
    }
  }

  lemma LastOk(log: seq<Rec>, r: Rec)
    requires StoreHistory(log + [r])
    ensures StoreRecOk(log, r)
  {
    assert (log + [r])[..|log|] == log && (log + [r])[|log|] == r;
  }

  lemma SameRowsChained(log: seq<Rec>, log': seq<Rec>, t: TxnId)
    requires forall q :: Row(log', q) == Row(log, q)
    ensures CommitChained(log', t) <==> CommitChained(log, t)
  {
    hide Row, FromLe, Decode6;
    assert forall q :: Head(log', q) == Head(log, q);
    hide Head;
  }

  lemma QuietChained(log: seq<Rec>, r: Rec)
    requires StoreHistory(log) && StoreHistory(log + [r]) && ChainedLog(log)
    requires !r.payload.Insert? && !r.payload.Update? && !r.payload.Delete?
    requires r.payload.Commit? ==> CommitChained(log, r.txn)
    ensures ChainedLog(log + [r])
    ensures forall u :: CommitChained(log, u) ==> CommitChained(log + [r], u)
  {
    hide CommitChained, ChainedLog;
    QuietRows(log, r);
    ChainedStep(log, r);
    forall u | CommitChained(log, u) ensures CommitChained(log + [r], u) {
      SameRowsChained(log, log + [r], u);
    }
  }

  /** An Insert record adds one row. */
  lemma InsertHeads(log: seq<Rec>, r: Rec, rid: RecordId)
    requires StoreHistory(log) && StoreHistory(log + [r]) && IsInsert(r, rid)
    ensures |r.payload.after| >= HEADER_SIZE && Head(log, rid).None?
    ensures Head(log + [r], rid) == DecodeHeader(r.payload.after) && DecodeHeader(r.payload.after).value.xmin == r.txn
    ensures forall q :: q != rid ==> Head(log + [r], q) == Head(log, q)
  {
    LastOk(log, r);
    assert InHeap(log, rid.page);
    RowStep(log, r, rid);
    hide Row, StoreHistory, FromLe, Decode6;
    forall q | q != rid ensures Row(log + [r], q) == Row(log, q) {
      Untouched(log, r, q);
    }
  }

  /** A stamp changes one row, by its xmax. */
  lemma StampHeads(log: seq<Rec>, r: Rec, rid: RecordId)
    requires StoreHistory(log) && StoreHistory(log + [r]) && IsStamp(r, rid)
    ensures Head(log, rid).Some? && Head(log, rid).value.xmax == NO_TXN
    ensures Head(log + [r], rid) == Some(Head(log, rid).value.(xmax := r.txn))
    ensures forall q :: q != rid ==> Head(log + [r], q) == Head(log, q)
  {
    LastOk(log, r);
    assert InHeap(log, rid.page);
    RowStep(log, r, rid);
    StampIsXmax(r.payload.before, r.txn);
    hide Row, StoreHistory, FromLe, Decode6;
    forall q | q != rid ensures Row(log + [r], q) == Row(log, q) {
      Untouched(log, r, q);
    }
  }

  lemma InsertKeepsLinked(log: seq<Rec>, r: Rec, rid: RecordId, q: RecordId)
    requires StoreHistory(log) && StoreHistory(log + [r]) && IsInsert(r, rid) && Head(log, q).Some? && LinkedRow(log, q)
    ensures Head(log + [r], q) == Head(log, q) && LinkedRow(log + [r], q)
  {
    hide Head, StoreHistory;
    InsertHeads(log, r, rid);
  }

  lemma StampKeepsLinked(log: seq<Rec>, r: Rec, rid: RecordId, q: RecordId)
    requires StoreHistory(log) && StoreHistory(log + [r]) && IsStamp(r, rid) && Head(log, q).Some?
    requires LinkedRow(log, q) || (Replaces(log, q, rid) && Head(log, q).value.xmin == r.txn)
    ensures Head(log + [r], q).Some? && Head(log + [r], q).value.xmin == Head(log, q).value.xmin
    ensures LinkedRow(log + [r], q)
  {
    StampHeads(log, r, rid);
    RowCreator(log, q);
    hide Head, StoreHistory;
  }

  // ----- Whole operations -----

  /** The log stays chained, and transactions with only linked rows stay so. */
  ghost predicate Kept(log: seq<Rec>, log': seq<Rec>) {
    ChainedLog(log') && forall u :: CommitChained(log, u) ==> CommitChained(log', u)
  }

  ghost predicate LinkedKept(log: seq<Rec>, log': seq<Rec>) {
    forall q :: Head(log, q).Some? && LinkedRow(log, q) ==> Head(log', q) == Head(log, q) && LinkedRow(log', q)
  }

  lemma SameRowsInsert(log: seq<Rec>, r: Rec, t: TxnId, was: RecordId)
    requires StoreHistory(log) && StoreHistory(log + [r]) && r.payload.HeapPage? && InsertChained(log, t, was)
    ensures InsertChained(log + [r], t, was)
  {
    hide Head, R.HasCommit, StoreHistory;
    QuietHeads(log, r);
  }

  /** The Insert record itself. */
  lemma InsertOne(log: seq<Rec>, r: Rec, rid: RecordId)
    requires StoreHistory(log) && StoreHistory(log + [r]) && ChainedLog(log) && IsInsert(r, rid) && Chained(log, r)
    ensures ChainedLog(log + [r]) && LinkedKept(log, log + [r]) && |r.payload.after| >= HEADER_SIZE
    ensures forall u :: CommitChained(log, u) && (u != r.txn || DecodeHeader(r.payload.after).value.prev.None?) ==>
      CommitChained(log + [r], u)
  {
    hide Head, StoreHistory, Chained, ChainedLog, LinkedRow, FromLe, Decode6;
    ChainedStep(log, r);
    InsertHeads(log, r, rid);
    forall q | Head(log, q).Some? && LinkedRow(log, q)
      ensures Head(log + [r], q) == Head(log, q) && LinkedRow(log + [r], q)
    {
      InsertKeepsLinked(log, r, rid, q);
    }
    forall u | CommitChained(log, u) && (u != r.txn || DecodeHeader(r.payload.after).value.prev.None?)
      ensures CommitChained(log + [r], u)
    {
      forall q | Head(log + [r], q).Some? && Head(log + [r], q).value.xmin == u ensures LinkedRow(log + [r], q) {
        if q == rid { NoPrevLinked(log + [r], rid); }
      }
    }
  }

  lemma NoPrevLinked(log: seq<Rec>, rid: RecordId)
    requires Head(log, rid).Some? && Head(log, rid).value.prev.None?
    ensures LinkedRow(log, rid)
  {
  }

  /** An insert, with its HeapPage record if there is one. */
  lemma InsertKept(log: seq<Rec>, log': seq<Rec>, t: TxnId, rid: RecordId, bytes: seq<byte>)
    requires StoreHistory(log) && StoreHistory(log') && ChainedLog(log) && S.InsertLogged(log, log', t, rid, bytes)
    requires |bytes| >= HEADER_SIZE
    requires DecodeHeader(bytes).value.prev.Some? ==> InsertChained(log, t, DecodeHeader(bytes).value.prev.value)
    ensures ChainedLog(log') && LinkedKept(log, log')
    ensures forall u :: CommitChained(log, u) && (u != t || DecodeHeader(bytes).value.prev.None?) ==>
      CommitChained(log', u)
  {
    hide FromLe, Decode6, InsertChained, CommitChained, LinkedKept, ChainedLog, Head, StoreHistory, S.InsertLogged;
    var pre, r := InsertParts(log, log', t, rid, bytes);
    LinkedSelf(log);
    if pre != log {
      var hp := pre[|log|];
      QuietChained(log, hp);
      QuietLinked(log, hp);
      if DecodeHeader(bytes).value.prev.Some? {
        SameRowsInsert(log, hp, t, DecodeHeader(bytes).value.prev.value);
      }
    }
    InsertOne(pre, r, rid);
    LinkedTwice(log, pre, log');
  }

  /** The Insert record of an insert, and the log before it. */
  lemma InsertParts(log: seq<Rec>, log': seq<Rec>, t: TxnId, rid: RecordId, bytes: seq<byte>)
    returns (pre: seq<Rec>, r: Rec)
    requires StoreHistory(log') && S.InsertLogged(log, log', t, rid, bytes)
    ensures log' == pre + [r] && StoreHistory(pre) && IsInsert(r, rid) && r.txn == t && r.payload.after == bytes
    ensures pre != log ==> |pre| == |log| + 1 && pre == log + [pre[|log|]] && pre[|log|].payload.HeapPage?
  {
    hide StoreHistory;
    var k := |log'| - 1;
    pre, r := log'[..k], log'[k];
    StorePrefix(log', k);
  }

  lemma LinkedSelf(log: seq<Rec>)
    ensures LinkedKept(log, log)
  {
  }

  lemma LinkedTwice(log: seq<Rec>, mid: seq<Rec>, log': seq<Rec>)
    requires LinkedKept(log, mid) && LinkedKept(mid, log')
    ensures LinkedKept(log, log')
  {
  }

  lemma QuietLinked(log: seq<Rec>, r: Rec)
    requires StoreHistory(log) && StoreHistory(log + [r])
    requires !r.payload.Insert? && !r.payload.Update? && !r.payload.Delete?
    ensures LinkedKept(log, log + [r])
  {
    QuietRows(log, r);
    hide Row, FromLe, Decode6, StoreHistory;
    assert forall q :: Head(log + [r], q) == Head(log, q);
    hide Head;
  }

  /** The last row born has the largest name. */
  lemma NewestName(log: seq<Rec>, r: Rec, rid: RecordId, b: RecordId)
    requires StoreHistory(log + [r]) && IsInsert(r, rid) && Head(log + [r], b).Some?
    ensures Name(Born(log + [r]), b) <= Name(Born(log + [r]), rid)
  {
    RowsAreVersions(log + [r], ANY);
    Step(log, r, ANY);
    var rids := Born(log + [r]);
    assert rids[|rids| - 1] == rid;
    hide Row, M.Fold, Versions, RowIs, Born;
    NameAt(rids, |rids| - 1);
  }

  /** The stamp that ends an update. */
  lemma UpdateStamp(log: seq<Rec>, mid: seq<Rec>, r: Rec, t: TxnId, rid: RecordId, rid': RecordId, bytes: seq<byte>)
    requires StoreHistory(log) && StoreHistory(mid) && StoreHistory(mid + [r]) && ChainedLog(log)
    requires S.InsertLogged(log, mid, t, rid', bytes) && |bytes| >= HEADER_SIZE
    requires DecodeHeader(bytes).value.prev == Some(rid) && InsertChained(log, t, rid) && CommitChained(log, t)
    requires r.txn == t && IsStamp(r, rid)
    ensures Kept(log, mid + [r])
  {
    hide FromLe, Decode6, StoreHistory, ChainedLog, LinkedRow, Head, Name, Born, R.HasCommit;
    InsertKept(log, mid, t, rid', bytes);
    MidHeads(log, mid, t, rid', bytes);
    StampHeads(mid, r, rid);
    assert StampChained(mid, t, rid) by {
      forall a, b | Replaces(mid, a, rid) && Replaces(mid, b, rid) && Head(mid, a).value.xmin == t
        ensures Name(Born(mid), b) <= Name(Born(mid), a)
      {
        assert a != rid' ==> Replaces(log, a, rid);
        MidNewest(log, mid, t, rid', bytes, b);
      }
    }
    ChainedStep(mid, r);
    forall u | CommitChained(log, u) ensures CommitChained(mid + [r], u) {
      forall q | Head(mid + [r], q).Some? && Head(mid + [r], q).value.xmin == u ensures LinkedRow(mid + [r], q) {
        assert Head(mid, q).Some? && Head(mid, q).value.xmin == u;
        StampKeepsLinked(mid, r, rid, q);
      }
    }
  }

  lemma MidHeads(log: seq<Rec>, mid: seq<Rec>, t: TxnId, rid': RecordId, bytes: seq<byte>)
    requires StoreHistory(log) && StoreHistory(mid) && S.InsertLogged(log, mid, t, rid', bytes)
    ensures |bytes| >= HEADER_SIZE && Head(log, rid').None? && Head(mid, rid') == DecodeHeader(bytes)
    ensures DecodeHeader(bytes).value.xmin == t
    ensures forall q :: q != rid' ==> Head(mid, q) == Head(log, q)
    ensures forall c :: R.HasCommit(mid, c) <==> R.HasCommit(log, c)
  {
    hide StoreHistory, FromLe, Decode6, Head, Row, R.HasCommit, R.HasAbort, R.HasData, R.MaxTxn, S.InsertLogged;
    var pre, r := InsertParts(log, mid, t, rid', bytes);
    InsertHeads(pre, r, rid');
    R.NoteTxns(pre, r);
    if pre != log { QuietHeads(log, pre[|log|]); }
  }

  lemma QuietHeads(log: seq<Rec>, r: Rec)
    requires StoreHistory(log) && StoreHistory(log + [r]) && r.payload.HeapPage?
    ensures forall q :: Head(log + [r], q) == Head(log, q)
    ensures forall c :: R.HasCommit(log + [r], c) <==> R.HasCommit(log, c)
  {
    hide StoreHistory, FromLe, Decode6, Row, R.HasCommit, R.HasAbort, R.HasData, R.MaxTxn;
    QuietRows(log, r);
    R.NoteTxns(log, r);
  }

  lemma MidNewest(log: seq<Rec>, mid: seq<Rec>, t: TxnId, rid': RecordId, bytes: seq<byte>, b: RecordId)
    requires StoreHistory(mid) && S.InsertLogged(log, mid, t, rid', bytes) && Head(mid, b).Some?
    ensures Name(Born(mid), b) <= Name(Born(mid), rid')
  {
    hide StoreHistory, Head, Name, Born, S.InsertLogged;
    var pre, r := InsertParts(log, mid, t, rid', bytes);
    NewestName(pre, r, rid', b);
  }

  // ----- The operations of the store -----

  lemma InsertOp(log: seq<Rec>, log': seq<Rec>, t: TxnId, rid: RecordId, payload: seq<byte>)
    requires StoreHistory(log) && StoreHistory(log') && ChainedLog(log) && t < TWO64
    requires S.InsertLogged(log, log', t, rid, S.VersionBytes(t, None, payload))
    ensures Kept(log, log')
  {
    S.VersionReads(t, None, payload);
    hide ChainedLog, CommitChained, StoreHistory, S.VersionBytes, FromLe, Decode6;
    InsertKept(log, log', t, rid, S.VersionBytes(t, None, payload));
  }

  lemma UpdateOp(log: seq<Rec>, log': seq<Rec>, snap: Snapshot, commits: CommitLog, rid: RecordId, rid': RecordId,
                 payload: seq<byte>)
    requires StoreHistory(log) && StoreHistory(log') && ChainedLog(log) && FIRST_USER_TXN <= snap.txnId < TWO64
    requires CommitChained(log, snap.txnId) && Truthful(commits, log) && S.Writable(Row(log, rid), snap, commits)
    requires rid.page < TWO32 && rid.slot < 0xFFFF
    requires S.UpdateLogged(log, log', snap.txnId, rid, rid', S.VersionBytes(snap.txnId, Some(rid), payload))
    ensures Kept(log, log')
  {
    S.VersionReads(snap.txnId, Some(rid), payload);
    hide ChainedLog, CommitChained, S.VersionBytes, FromLe, Decode6, Truthful, S.Writable, Row, InsertChained, Kept;
    hide StoreHistory, S.InsertLogged, S.UpdateLogged;
    WritableChained(log, snap, commits, rid);
    var bytes := S.VersionBytes(snap.txnId, Some(rid), payload);
    var mid, r := UpdateParts(log, log', snap.txnId, rid, rid', bytes);
    UpdateStamp(log, mid, r, snap.txnId, rid, rid', bytes);
  }

  lemma UpdateParts(log: seq<Rec>, log': seq<Rec>, t: TxnId, rid: RecordId, rid': RecordId, bytes: seq<byte>)
    returns (mid: seq<Rec>, r: Rec)
    requires StoreHistory(log') && S.UpdateLogged(log, log', t, rid, rid', bytes)
    ensures log' == mid + [r] && StoreHistory(mid) && S.InsertLogged(log, mid, t, rid', bytes)
    ensures r.txn == t && IsStamp(r, rid)
  {
    hide StoreHistory, S.InsertLogged;
    var k := |log'| - 1;
    mid, r := log'[..k], log'[k];
    StorePrefix(log', k);
  }

  lemma DeleteOp(log: seq<Rec>, r: Rec, snap: Snapshot, commits: CommitLog, rid: RecordId)
    requires StoreHistory(log) && StoreHistory(log + [r]) && ChainedLog(log) && snap.txnId >= FIRST_USER_TXN
    requires CommitChained(log, snap.txnId) && Truthful(commits, log) && S.Writable(Row(log, rid), snap, commits)
    requires r.txn == snap.txnId && IsStamp(r, rid)
    ensures Kept(log, log + [r])
  {
    WritableChained(log, snap, commits, rid);
    hide FromLe, Decode6, StoreHistory, ChainedLog, LinkedRow, Head, Name, Born, R.HasCommit, Row;
    StampHeads(log, r, rid);
    ChainedStep(log, r);
    forall u | CommitChained(log, u) ensures CommitChained(log + [r], u) {
      forall q | Head(log + [r], q).Some? && Head(log + [r], q).value.xmin == u ensures LinkedRow(log + [r], q) {
        StampKeepsLinked(log, r, rid, q);
      }
    }
  }

  lemma EndOp(log: seq<Rec>, r: Rec)
    requires StoreHistory(log) && StoreHistory(log + [r]) && ChainedLog(log)
    requires r.payload.Abort? || (r.payload.Commit? && CommitChained(log, r.txn))
    ensures Kept(log, log + [r])
  {
    hide ChainedLog, CommitChained, StoreHistory;
    QuietChained(log, r);
  }

  /** An id that has written nothing, such as one allocated after recovery, has only linked rows. */
  lemma FreshChained(log: seq<Rec>, t: TxnId)
    requires StoreHistory(log) && t > R.MaxTxn(log)
    ensures CommitChained(log, t)
  {
    hide LinkedRow;
    forall q | Head(log, q).Some? ensures Head(log, q).value.xmin != t {
      RowInserter(log, q);
    }
  }

  /** A store over what recovery left is ready for the ids allocated from then on. */
  lemma RecoveredReady(log: seq<Rec>, report: R.Report, commits: CommitLog, active: set<TxnId>)
    requires StoreHistory(log) && ChainedLog(log) && R.ReportOk(log, report)
    requires forall c :: c >= FIRST_USER_TXN && StatusOf(commits, c) == Committed ==> c in report.committed
    requires forall t :: t in active ==> FIRST_USER_TXN <= t < TWO64 && t > R.MaxTxn(log)
    ensures Ready(log, active, commits)
  {
    hide ChainedLog, CommitChained, StoreHistory, R.DirOk;
    forall t | t in active ensures S.Running(log, t) && CommitChained(log, t) {
      FreshChained(log, t);
      if R.HasCommit(log, t) || R.HasAbort(log, t) {
        var i :| 0 <= i < |log| && log[i].txn == t;
        R.MaxTxnIs(log);
      }
    }
  }

  lemma RowInserter(log: seq<Rec>, rid: RecordId)
    requires StoreHistory(log) && Head(log, rid).Some?
    ensures Head(log, rid).value.xmin <= R.MaxTxn(log)
  {
    S.RowInHeap(log, rid);
    RowMeaning(log, rid);
    hide Row, FromLe, Decode6, StoreHistory, R.MaxTxn;
    var t, d := Head(log, rid).value.xmin, Row(log, rid).value[HEADER_SIZE..];
    assert InsertedBy(log, rid, t, d);
    var j :| 0 <= j < |log| && IsInsert(log[j], rid) && log[j].txn == t
             && |log[j].payload.after| >= HEADER_SIZE && log[j].payload.after[HEADER_SIZE..] == d;
    R.MaxTxnIs(log);
  }

  // ----- Any sequence of operations -----

  datatype Op =
    | New(t: TxnId, heap: nat, payload: seq<byte>)
    | Replace(snap: Snapshot, rid: RecordId, payload: seq<byte>)
    | Drop(snap: Snapshot, rid: RecordId)
    | End(t: TxnId, committed: bool)

  function Actor(op: Op): TxnId {
    match op
    case New(t, _, _) => t
    case Replace(snap, _, _) => snap.txnId
    case Drop(snap, _) => snap.txnId
    case End(t, _) => t
  }

  /** The running transactions have only linked rows, and nobody is held for committed who is not. */
  ghost predicate Ready(log: seq<Rec>, active: set<TxnId>, commits: CommitLog) {
    && ChainedLog(log) && Truthful(commits, log)
    && forall t :: t in active ==> S.Running(log, t) && CommitChained(log, t)
  }

  lemma ReadyAfter(log: seq<Rec>, log': seq<Rec>, active: set<TxnId>, commits: CommitLog)
    requires Ready(log, active, commits) && Kept(log, log') && log <= log'
    requires forall t :: t in active && S.Running(log, t) ==> S.Running(log', t)
    ensures Ready(log', active, commits)
  {
    hide ChainedLog, CommitChained, S.Running;
    forall c | R.HasCommit(log, c) ensures R.HasCommit(log', c) {
      var i :| 0 <= i < |log| && log[i].payload.Commit? && log[i].txn == c;
      assert log'[i] == log[i];
    }
  }

  /** No record but an end record ends anybody. */
  lemma StillRunning(log: seq<Rec>, log': seq<Rec>, t: TxnId)
    requires log <= log' && S.Running(log, t)
    requires forall i :: |log| <= i < |log'| && log'[i].txn == t ==> !log'[i].payload.Commit? && !log'[i].payload.Abort?
    ensures S.Running(log', t)
  {
  }

  /** Run the operation if its transaction is running, and keep the books. */
  method Run(store: S.RecordStore, op: Op, active: set<TxnId>, commits: CommitLog)
    returns (active': set<TxnId>, commits': CommitLog)
    requires store.Valid() && Ready(store.log, active, commits)
    modifies store
    ensures store.Valid() && Ready(store.log, active', commits') && old(store.log) <= store.log
  {
    active', commits' := active, commits;
    if Actor(op) in active {
      match op {
        case New(t, h, payload) => RunNew(store, t, h, payload, active, commits);
        case Replace(snap, rid, payload) =>
          if store.nextPage <= TWO32 { RunReplace(store, snap, rid, payload, active, commits); }
        case Drop(snap, rid) => RunDrop(store, snap, rid, active, commits);
        case End(t, committed) => active', commits' := RunEnd(store, t, committed, active, commits);
      }
    }
  }

  lemma NewReady(log: seq<Rec>, log': seq<Rec>, t: TxnId, rid: RecordId, payload: seq<byte>, active: set<TxnId>,
                 commits: CommitLog)
    requires StoreHistory(log) && StoreHistory(log') && Ready(log, active, commits) && t in active
    requires S.InsertLogged(log, log', t, rid, S.VersionBytes(t, None, payload))
    ensures Ready(log', active, commits)
  {
    hide ChainedLog, CommitChained, Truthful, StoreHistory, Kept, S.VersionBytes;
    InsertOp(log, log', t, rid, payload);
    forall u | u in active ensures S.Running(log', u) { StillRunning(log, log', u); }
    ReadyAfter(log, log', active, commits);
  }

  lemma ReplaceReady(log: seq<Rec>, log': seq<Rec>, snap: Snapshot, commits: CommitLog, rid: RecordId, rid': RecordId,
                     payload: seq<byte>, active: set<TxnId>)
    requires StoreHistory(log) && StoreHistory(log') && Ready(log, active, commits) && snap.txnId in active
    requires S.Writable(Row(log, rid), snap, commits) && rid.page < TWO32 && rid.slot < 0xFFFF
    requires S.UpdateLogged(log, log', snap.txnId, rid, rid', S.VersionBytes(snap.txnId, Some(rid), payload))
    ensures Ready(log', active, commits)
  {
    hide ChainedLog, CommitChained, Truthful, StoreHistory, Kept, S.VersionBytes, S.Writable, Row;
    UpdateOp(log, log', snap, commits, rid, rid', payload);
    assert log'[..|log'| - 1] <= log';
    forall u | u in active ensures S.Running(log', u) { StillRunning(log, log', u); }
    ReadyAfter(log, log', active, commits);
  }

  method RunNew(store: S.RecordStore, t: TxnId, h: nat, payload: seq<byte>, ghost active: set<TxnId>,
                ghost commits: CommitLog)
    requires store.Valid() && Ready(store.log, active, commits) && t in active
    modifies store
    ensures store.Valid() && Ready(store.log, active, commits) && old(store.log) <= store.log
  {
    S.LoggedHistory(store.log, store.nextLsn);
    ReadyRunning(store.log, active, commits, t);
    hide S.Logged, S.PagesValid, S.DirValid, S.Allocated, S.PagesBelow, Ready, StoreHistory, S.Running;
    hide S.AddedRow, S.Placed, R.HeapPages, S.VersionBytes, S.InsertLogged;
    ghost var log := store.log;
    var rid := store.InsertRow(t, h, payload);
    S.LoggedHistory(store.log, store.nextLsn);
    if rid.Some? { NewReady(log, store.log, t, rid.value, payload, active, commits); }
  }

  lemma ReadyRunning(log: seq<Rec>, active: set<TxnId>, commits: CommitLog, t: TxnId)
    requires Ready(log, active, commits) && t in active
    ensures S.Running(log, t)
  {
  }

  method RunReplace(store: S.RecordStore, snap: Snapshot, rid: RecordId, payload: seq<byte>, ghost active: set<TxnId>,
                    commits: CommitLog)
    requires store.Valid() && Ready(store.log, active, commits) && snap.txnId in active && store.nextPage <= TWO32
    modifies store
    ensures store.Valid() && Ready(store.log, active, commits) && old(store.log) <= store.log
  {
    S.LoggedHistory(store.log, store.nextLsn);
    ReadyRunning(store.log, active, commits, snap.txnId);
    hide S.Logged, S.PagesValid, S.DirValid, S.Allocated, S.PagesBelow, Ready, StoreHistory, S.Running;
    hide S.Superseded, R.HeapPages, S.VersionBytes, S.Writable, Row, S.UpdateLogged;
    ghost var log := store.log;
    if S.Writable(Row(log, rid), snap, commits) {
      S.WritableIff(Row(log, rid), snap, commits);
      S.BackPointer(store.pages, log, store.nextPage, rid);
    }
    var rid' := store.UpdateRow(snap, commits, rid, payload);
    S.LoggedHistory(store.log, store.nextLsn);
    if rid'.Some? { ReplaceReady(log, store.log, snap, commits, rid, rid'.value, payload, active); }
  }

  method RunDrop(store: S.RecordStore, snap: Snapshot, rid: RecordId, ghost active: set<TxnId>, commits: CommitLog)
    requires store.Valid() && Ready(store.log, active, commits) && snap.txnId in active
    modifies store
    ensures store.Valid() && Ready(store.log, active, commits) && old(store.log) <= store.log
  {
    S.LoggedHistory(store.log, store.nextLsn);
    hide S.PagesValid, S.DirValid, S.Allocated, S.PagesBelow, ChainedLog, CommitChained, Truthful, StoreHistory;
    hide S.ChangedRow, S.Writable, Row, StampBytes;
    ghost var log := store.log;
    var ok := store.DeleteRow(snap, commits, rid);
    S.LoggedHistory(store.log, store.nextLsn);
    if ok {
      DeleteOp(log, store.log[|log|], snap, commits, rid);
      forall u | u in active ensures S.Running(store.log, u) { StillRunning(log, store.log, u); }
      ReadyAfter(log, store.log, active, commits);
    }
  }

  method RunEnd(store: S.RecordStore, t: TxnId, committed: bool, active: set<TxnId>, commits: CommitLog)
    returns (active': set<TxnId>, commits': CommitLog)
    requires store.Valid() && Ready(store.log, active, commits) && t in active
    modifies store
    ensures store.Valid() && Ready(store.log, active', commits') && old(store.log) <= store.log
  {
    S.LoggedHistory(store.log, store.nextLsn);
    hide S.PagesValid, S.DirValid, S.Allocated, S.PagesBelow, ChainedLog, CommitChained, StoreHistory, S.SameRows;
    ghost var log := store.log;
    store.EndTxn(t, committed);
    S.LoggedHistory(store.log, store.nextLsn);
    EndOp(log, store.log[|log|]);
    active', commits' := active - {t}, commits[t := if committed then Committed else Aborted];
    forall u | u in active' ensures S.Running(store.log, u) { StillRunning(log, store.log, u); }
    ReadyEnd(log, store.log, t, committed, active, commits);
  }

  lemma ReadyEnd(log: seq<Rec>, log': seq<Rec>, t: TxnId, committed: bool, active: set<TxnId>, commits: CommitLog)
    requires Ready(log, active, commits) && Kept(log, log') && |log'| == |log| + 1 && log <= log'
    requires log'[|log|].txn == t && log'[|log|].payload == if committed then Redo.Commit else Redo.Abort
    requires forall u :: u in active - {t} ==> S.Running(log', u)
    ensures Ready(log', active - {t}, commits[t := if committed then Committed else Aborted])
  {
    hide ChainedLog, CommitChained, S.Running;
    forall c | R.HasCommit(log, c) ensures R.HasCommit(log', c) {
      var i :| 0 <= i < |log| && log[i].payload.Commit? && log[i].txn == c;
      assert log'[i] == log[i];
    }
    if committed { assert R.HasCommit(log', t); }
  }

  /**
   * Any sequence of operations, by transactions interleaved in any way and with whatever snapshots, leaves the log
   * chained.
   */
  method RunAll(store: S.RecordStore, ops: seq<Op>, active: set<TxnId>, commits: CommitLog)
    requires store.Valid() && Ready(store.log, active, commits)
    modifies store
    ensures store.Valid() && ChainedLog(store.log) && old(store.log) <= store.log
  {
    var active', commits' := active, commits;
    for i := 0 to |ops|
      invariant store.Valid() && Ready(store.log, active', commits') && old(store.log) <= store.log
    {
      active', commits' := Run(store, ops[i], active', commits');
    }
  }
}
