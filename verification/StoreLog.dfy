/** The log discipline of the record store, what it makes of the pages, and which rows it says are live. */
module StoreLog {
  import opened Bytes
  import opened Options
  import opened Visibility
  import opened RecordHeader
  import opened Redo
  import R = Recovery
  import SP = SlottedPage

  /** The heap page the log leads to, if it leads to one. */
  function HeapBody(log: seq<Rec>, p: PageId): Option<SP.Page> {
    match Replay(log, p)
    case Ok(Page(_, Heap(page))) => Some(page)
    case _ => None
  }

  /** The bytes of a record, as the log leaves them. */
  function Row(log: seq<Rec>, rid: RecordId): Option<seq<byte>> {
    match HeapBody(log, rid.page)
    case None => None
    case Some(page) => SP.PageGet(page, rid.slot)
  }

  ghost predicate InHeap(log: seq<Rec>, p: PageId) {
    exists i :: 0 <= i < |log| && log[i].payload.HeapPage? && log[i].payload.heapPage == p
  }

  predicate IsStamp(r: Rec, rid: RecordId) {
    (r.payload.Update? || r.payload.Delete?) && r.payload.page == rid.page && r.payload.slot == rid.slot
  }

  predicate IsInsert(r: Rec, rid: RecordId) {
    r.payload.Insert? && r.payload.page == rid.page && r.payload.slot == rid.slot
  }

  ghost predicate Ended(log: seq<Rec>, t: TxnId) {
    R.HasCommit(log, t) || R.HasAbort(log, t)
  }

  /** What the store guarantees of a record it appends, given the records before it. */
  ghost predicate StoreRecOk(pre: seq<Rec>, r: Rec) {
    && (r.payload.Other? || r.payload.FullPageImage? || (FIRST_USER_TXN <= r.txn < TWO64 && !Ended(pre, r.txn)))
    && match r.payload
       case Insert(p, slot, after) =>
         && InHeap(pre, p)
         && |after| >= HEADER_SIZE
         && DecodeHeader(after).value.xmin == r.txn && DecodeHeader(after).value.xmax == NO_TXN
         && (DecodeHeader(after).value.prev.Some? ==> Row(pre, DecodeHeader(after).value.prev.value).Some?)
         && HeapBody(pre, p).Some? && RedoInsert(HeapBody(pre, p).value, slot, after).Ok?
       case Update(p, slot, before, after) =>
         && InHeap(pre, p)
         && Row(pre, RecordId(p, slot)) == Some(before) && |before| >= HEADER_SIZE
         && DecodeHeader(before).value.xmax == NO_TXN
         && after == StampBytes(before, r.txn)
       case Delete(p, slot, before) =>
         && InHeap(pre, p)
         && Row(pre, RecordId(p, slot)) == Some(before) && |before| >= HEADER_SIZE
         && DecodeHeader(before).value.xmax == NO_TXN
       case FullPageImage(p, image) =>
         !InHeap(pre, p) && |image| == SP.PAGE_SIZE && FromLe(image[..8]) == 0
       case HeapPage(_, p) => !InHeap(pre, p) && !R.Touched(pre, p)
       case _ => true
  }

  ghost predicate StoreHistory(log: seq<Rec>) {
    Ascending(log) && forall j :: 0 <= j < |log| ==> StoreRecOk(log[..j], log[j])
  }

  lemma StorePrefix(log: seq<Rec>, k: nat)
    requires StoreHistory(log) && k <= |log|
    ensures StoreHistory(log[..k])
  {
    forall j | 0 <= j < k ensures StoreRecOk(log[..k][..j], log[..k][j]) {
      assert log[..k][..j] == log[..j];
    }
  }

  lemma StoreAppend(log: seq<Rec>, r: Rec)
    requires StoreHistory(log) && StoreRecOk(log, r)
    requires r.lsn > 0 && forall i :: 0 <= i < |log| ==> log[i].lsn < r.lsn
    ensures StoreHistory(log + [r])
  {
    forall j | 0 <= j < |log + [r]| ensures StoreRecOk((log + [r])[..j], (log + [r])[j]) {
      if j < |log| {
        assert (log + [r])[..j] == log[..j];
      } else {
        assert (log + [r])[..j] == log;
      }
    }
  }

  // ----- One record's effect on the rows -----

  /** What redo of a store record makes of a heap page: a new row, or a stamped one. */
  lemma ApplyStore(log: seq<Rec>, r: Rec, p: PageId)
    requires StoreRecOk(log, r) && Touches(r, p) && InHeap(log, p)
    ensures HeapBody(log, p).Some? && Replay(log, p).Ok?
    ensures Apply(Replay(log, p).value, r).Ok? && Apply(Replay(log, p).value, r).value.body.Heap?
    ensures var was, now := HeapBody(log, p).value, Apply(Replay(log, p).value, r).value.body.page;
      match r.payload
      case Insert(_, slot, after) => RedoInsert(was, slot, after) == Ok(now)
      case Update(_, slot, before, _) => SP.PageEdit(was, slot, StampBytes(before, r.txn)) == Some(now)
      case Delete(_, slot, before) => SP.PageEdit(was, slot, StampBytes(before, r.txn)) == Some(now)
      case _ => false
  {
  }

  /** In a heap, pages are never anything but heap pages, and every record replays. */
  lemma {:induction false} HeapReplays(log: seq<Rec>, p: PageId)
    requires StoreHistory(log)
    ensures InHeap(log, p) ==> HeapBody(log, p).Some?
    ensures !InHeap(log, p) ==> forall i :: 0 <= i < |log| && Touches(log[i], p) ==> log[i].payload.FullPageImage?
    ensures InHeap(log, p) ==> forall i :: 0 <= i < |log| && Touches(log[i], p) ==> !log[i].payload.FullPageImage?
  {
    if log != [] {
      var k := |log| - 1;
      var pre, r := log[..k], log[k];
      StorePrefix(log, k);
      HeapReplays(pre, p);
      assert StoreRecOk(pre, r);
      assert log == pre + [r];
      ReplayAppend(pre, r, p);
      InHeapStep(pre, r, p);
      assert forall i :: 0 <= i < k ==> pre[i] == log[i];
      if Touches(r, p) && InHeap(pre, p) { ApplyStore(pre, r, p); }
      if r.payload.HeapPage? && r.payload.heapPage == p { ReplayUntouched(pre, p); }
    }
  }

  lemma InHeapStep(log: seq<Rec>, r: Rec, p: PageId)
    ensures InHeap(log + [r], p) <==> InHeap(log, p) || (r.payload.HeapPage? && r.payload.heapPage == p)
  {
    var more := log + [r];
    assert more[|log|] == r;
    if InHeap(log, p) {
      var i :| 0 <= i < |log| && log[i].payload.HeapPage? && log[i].payload.heapPage == p;
      assert more[i].payload.HeapPage? && more[i].payload.heapPage == p;
    }
  }

  lemma {:induction false} ReplayUntouched(log: seq<Rec>, p: PageId)
    requires !R.Touched(log, p)
    ensures Replay(log, p) == Ok(Fresh)
  {
    if log != [] {
      var pre := log[..|log| - 1];
      assert forall i :: 0 <= i < |pre| ==> pre[i] == log[i];
      ReplayUntouched(pre, p);
    }
  }

  /** The store's logs are histories recovery can replay. */
  lemma StoreHistoryIsHistory(log: seq<Rec>)
    requires StoreHistory(log)
    ensures History(log)
  {
    forall p ensures IndexPage(log, p) || HeapPageOk(log, p) {
      HeapReplays(log, p);
      if !InHeap(log, p) {
        forall i | 0 <= i < |log| && Touches(log[i], p)
          ensures |log[i].payload.image| == SP.PAGE_SIZE && FromLe(log[i].payload.image[..8]) == 0
        {
          assert StoreRecOk(log[..i], log[i]);
        }
      }
    }
  }

  // ----- What a row means -----

  ghost predicate InsertedBy(log: seq<Rec>, rid: RecordId, t: TxnId, payload: seq<byte>) {
    exists j :: 0 <= j < |log| && IsInsert(log[j], rid) && log[j].txn == t
                && |log[j].payload.after| >= HEADER_SIZE && log[j].payload.after[HEADER_SIZE..] == payload
  }

  ghost predicate StampedBy(log: seq<Rec>, rid: RecordId, t: TxnId) {
    exists j :: 0 <= j < |log| && IsStamp(log[j], rid) && log[j].txn == t
  }

  /** The bytes of a row tell who inserted it, with what, and who, if anyone, superseded it. */
  ghost predicate RowFacts(log: seq<Rec>, rid: RecordId, row: Option<seq<byte>>) {
    match row
    case None => (forall t, d :: !InsertedBy(log, rid, t, d)) && (forall t :: !StampedBy(log, rid, t))
    case Some(bytes) =>
      && |bytes| >= HEADER_SIZE
      && (forall t, d :: InsertedBy(log, rid, t, d) <==>
            t == DecodeHeader(bytes).value.xmin && d == bytes[HEADER_SIZE..])
      && (forall t :: StampedBy(log, rid, t) <==> t == DecodeHeader(bytes).value.xmax && t != NO_TXN)
  }

  /** What one record does to one row. */
  lemma RowStep(log: seq<Rec>, r: Rec, rid: RecordId)
    requires StoreHistory(log) && StoreRecOk(log, r) && InHeap(log, rid.page)
    ensures IsInsert(r, rid) ==> Row(log, rid).None? && Row(log + [r], rid) == Some(r.payload.after)
    ensures IsStamp(r, rid) ==>
      Row(log, rid) == Some(r.payload.before) && Row(log + [r], rid) == Some(StampBytes(r.payload.before, r.txn))
    ensures !IsInsert(r, rid) && !IsStamp(r, rid) ==> Row(log + [r], rid) == Row(log, rid)
  {
    hide StoreHistory, Replay, Apply, InHeap, StampBytes, DecodeHeader, FromLe, R.Touched;
    HeapReplays(log, rid.page);
    ReplayAppend(log, r, rid.page);
    if Touches(r, rid.page) {
      ApplyStore(log, r, rid.page);
    }
  }

  lemma InsertedStep(log: seq<Rec>, r: Rec, rid: RecordId)
    requires IsInsert(r, rid) ==> |r.payload.after| >= HEADER_SIZE
    ensures forall t, d :: InsertedBy(log + [r], rid, t, d) <==>
      InsertedBy(log, rid, t, d) || (IsInsert(r, rid) && t == r.txn && d == r.payload.after[HEADER_SIZE..])
    ensures forall t :: StampedBy(log + [r], rid, t) <==> StampedBy(log, rid, t) || (IsStamp(r, rid) && t == r.txn)
  {
    var more := log + [r];
    assert more[|log|] == r && forall i :: 0 <= i < |log| ==> more[i] == log[i];
    forall t, d | InsertedBy(log, rid, t, d) ensures InsertedBy(more, rid, t, d) {
      var j :| 0 <= j < |log| && IsInsert(log[j], rid) && log[j].txn == t
               && |log[j].payload.after| >= HEADER_SIZE && log[j].payload.after[HEADER_SIZE..] == d;
      assert IsInsert(more[j], rid);
    }
    forall t | StampedBy(log, rid, t) ensures StampedBy(more, rid, t) {
      var j :| 0 <= j < |log| && IsStamp(log[j], rid) && log[j].txn == t;
      assert IsStamp(more[j], rid);
    }
  }

  lemma FactsStep(log: seq<Rec>, r: Rec, rid: RecordId)
    requires StoreHistory(log) && StoreRecOk(log, r) && InHeap(log, rid.page)
    requires RowFacts(log, rid, Row(log, rid))
    ensures RowFacts(log + [r], rid, Row(log + [r], rid))
  {
    hide StoreHistory, Row, InHeap, InsertedBy, StampedBy, DecodeHeader, StampBytes, RedoInsert, HeapBody, FromLe;
    RowStep(log, r, rid);
    InsertedStep(log, r, rid);
    if IsStamp(r, rid) {
      StampIsXmax(r.payload.before, r.txn);
    }
  }

  lemma {:induction false} RowMeaning(log: seq<Rec>, rid: RecordId)
    requires StoreHistory(log) && InHeap(log, rid.page)
    ensures RowFacts(log, rid, Row(log, rid))
  {
    var k := |log| - 1;
    var pre, r := log[..k], log[k];
    assert log == pre + [r];
    StorePrefix(log, k);
    assert StoreRecOk(pre, r);
    InHeapStep(pre, r, rid.page);
    if InHeap(pre, rid.page) {
      RowMeaning(pre, rid);
      FactsStep(pre, r, rid);
    } else {
      UntouchedFacts(pre, r, rid);
    }
  }

  lemma UntouchedFacts(log: seq<Rec>, r: Rec, rid: RecordId)
    requires !R.Touched(log, rid.page) && r.payload.HeapPage?
    ensures RowFacts(log + [r], rid, Row(log + [r], rid))
  {
    ReplayUntouched(log, rid.page);
    ReplayAppend(log, r, rid.page);
    InsertedStep(log, r, rid);
  }

  // ----- Live rows and scans -----

  /** The reference: rows of heap `h` a committed transaction inserted and no committed one superseded. */
  ghost predicate LiveRow(log: seq<Rec>, h: nat, rid: RecordId, payload: seq<byte>) {
    && rid.page in R.HeapPages(log, h)
    && (exists t :: R.HasCommit(log, t) && InsertedBy(log, rid, t, payload))
    && (forall t :: R.HasCommit(log, t) ==> !StampedBy(log, rid, t))
  }

  datatype Found = Found(rid: RecordId, payload: seq<byte>)

  predicate RowVisible(row: Option<seq<byte>>, snap: Snapshot, commits: CommitLog) {
    row.Some? && DecodeHeader(row.value).Some?
    && Visible(DecodeHeader(row.value).value.xmin, DecodeHeader(row.value).value.xmax, snap, commits)
  }

  /** The slots of a page. A page never written reads as zeros and has none. */
  function SlotsOf(pages: Disk, p: PageId): seq<Option<seq<byte>>> {
    if p in pages && pages[p].body.Heap? then pages[p].body.page.slots else []
  }

  function PageRows(p: PageId, slots: seq<Option<seq<byte>>>, snap: Snapshot, commits: CommitLog): seq<Found> {
    if slots == [] then []
    else
      var n := |slots| - 1;
      PageRows(p, slots[..n], snap, commits)
      + if RowVisible(slots[n], snap, commits) then [Found(RecordId(p, n), slots[n].value[HEADER_SIZE..])] else []
  }

  function ScanRows(pids: seq<PageId>, pages: Disk, snap: Snapshot, commits: CommitLog): seq<Found> {
    if pids == [] then []
    else
      var n := |pids| - 1;
      ScanRows(pids[..n], pages, snap, commits) + PageRows(pids[n], SlotsOf(pages, pids[n]), snap, commits)
  }

  lemma {:induction false} PageRowsHave(p: PageId, slots: seq<Option<seq<byte>>>, snap: Snapshot, commits: CommitLog,
                                        f: Found)
    ensures f in PageRows(p, slots, snap, commits) <==>
      f.rid.page == p && f.rid.slot < |slots| && RowVisible(slots[f.rid.slot], snap, commits)
      && f.payload == slots[f.rid.slot].value[HEADER_SIZE..]
  {
    if slots != [] {
      PageRowsHave(p, slots[..|slots| - 1], snap, commits, f);
    }
  }

  lemma {:induction false} ScanRowsHave(pids: seq<PageId>, pages: Disk, snap: Snapshot, commits: CommitLog, f: Found)
    ensures f in ScanRows(pids, pages, snap, commits) <==>
      f.rid.page in pids && f.rid.slot < |SlotsOf(pages, f.rid.page)|
      && RowVisible(SlotsOf(pages, f.rid.page)[f.rid.slot], snap, commits)
      && f.payload == SlotsOf(pages, f.rid.page)[f.rid.slot].value[HEADER_SIZE..]
  {
    if pids != [] {
      var n := |pids| - 1;
      ScanRowsHave(pids[..n], pages, snap, commits, f);
      PageRowsHave(pids[n], SlotsOf(pages, pids[n]), snap, commits, f);
      assert pids == pids[..n] + [pids[n]];
    }
  }

  // ----- The heap directory -----

  lemma {:induction false} DirectoryPages(log: seq<Rec>, h: nat, p: PageId)
    ensures p in R.HeapPages(log, h) <==>
      exists i :: 0 <= i < |log| && log[i].payload == HeapPage(h, p)
  {
    if log != [] {
      var k := |log| - 1;
      DirectoryPages(log[..k], h, p);
      assert forall i :: 0 <= i < k ==> log[..k][i] == log[i];
      if i :| 0 <= i < |log| && log[i].payload == HeapPage(h, p) && i < k {
        assert log[..k][i].payload == HeapPage(h, p);
      }
    }
  }

  /** Every page a row was ever put on is listed, under exactly one heap, exactly once. */
  lemma DirectoryComplete(log: seq<Rec>, i: nat) returns (h: nat)
    requires StoreHistory(log) && i < |log| && log[i].payload.Insert?
    ensures forall g :: log[i].payload.page in R.HeapPages(log, g) <==> g == h
  {
    var p := log[i].payload.page;
    assert StoreRecOk(log[..i], log[i]);
    var k :| 0 <= k < i && log[..i][k].payload.HeapPage? && log[..i][k].payload.heapPage == p;
    assert log[..i][k] == log[k];
    h := log[k].payload.heap;
    DirectoryPages(log, h, p);
    assert log[k].payload == HeapPage(h, p);
    forall g | p in R.HeapPages(log, g) ensures g == h {
      DirectoryPages(log, g, p);
      var j :| 0 <= j < |log| && log[j].payload == HeapPage(g, p);
      OneHeapPerPage(log, k, j, p);
    }
  }

  lemma OneHeapPerPage(log: seq<Rec>, j: nat, k: nat, p: PageId)
    requires StoreHistory(log) && j < |log| && k < |log|
    requires log[j].payload.HeapPage? && log[k].payload.HeapPage?
    requires log[j].payload.heapPage == p == log[k].payload.heapPage
    ensures j == k
  {
    if j < k {
      ListedOnce(log, j, k, p);
    } else if k < j {
      ListedOnce(log, k, j, p);
    }
  }

  lemma ListedOnce(log: seq<Rec>, lo: nat, hi: nat, p: PageId)
    requires StoreHistory(log) && lo < hi < |log| && log[lo].payload.HeapPage? && log[lo].payload.heapPage == p
    ensures !(log[hi].payload.HeapPage? && log[hi].payload.heapPage == p)
  {
    assert StoreRecOk(log[..hi], log[hi]) && log[..hi][lo] == log[lo];
  }

  lemma {:induction false} DirectoryDistinct(log: seq<Rec>, h: nat)
    requires StoreHistory(log)
    ensures forall i, j :: 0 <= i < j < |R.HeapPages(log, h)| ==> R.HeapPages(log, h)[i] != R.HeapPages(log, h)[j]
  {
    if log != [] {
      var k := |log| - 1;
      StorePrefix(log, k);
      DirectoryDistinct(log[..k], h);
      var r := log[k];
      assert StoreRecOk(log[..k], r);
      if r.payload.HeapPage? && r.payload.heap == h {
        DirectoryPages(log[..k], h, r.payload.heapPage);
        assert r.payload.heapPage !in R.HeapPages(log[..k], h);
      }
    }
  }

  lemma {:induction false} PageRowsOrdered(p: PageId, slots: seq<Option<seq<byte>>>, snap: Snapshot, commits: CommitLog)
    ensures var rows := PageRows(p, slots, snap, commits);
      forall i, j :: 0 <= i < j < |rows| ==> rows[i].rid.slot < rows[j].rid.slot
  {
    if slots != [] {
      var n := |slots| - 1;
      PageRowsOrdered(p, slots[..n], snap, commits);
      var front := PageRows(p, slots[..n], snap, commits);
      forall i | 0 <= i < |front| ensures front[i].rid.slot < n {
        PageRowsHave(p, slots[..n], snap, commits, front[i]);
      }
    }
  }

  /** On an earlier page of the list, or in an earlier slot of the same page. */
  ghost predicate Precedes(pids: seq<PageId>, a: RecordId, b: RecordId) {
    || (a.page == b.page && a.slot < b.slot)
    || (a.page != b.page && exists m, n :: 0 <= m < n < |pids| && pids[m] == a.page && pids[n] == b.page)
  }

  ghost predicate InOrder(pids: seq<PageId>, rows: seq<Found>) {
    forall i, j :: 0 <= i < j < |rows| ==> Precedes(pids, rows[i].rid, rows[j].rid)
  }

  /** A scan of distinct pages reports rows page by page and slot by slot, and so none of them twice. */
  lemma {:induction false} ScanRowsOnce(pids: seq<PageId>, pages: Disk, snap: Snapshot, commits: CommitLog)
    requires forall i, j :: 0 <= i < j < |pids| ==> pids[i] != pids[j]
    ensures var rows := ScanRows(pids, pages, snap, commits);
      && InOrder(pids, rows)
      && (forall i, j :: 0 <= i < j < |rows| ==> rows[i].rid != rows[j].rid)
  {
    if pids != [] {
      var n := |pids| - 1;
      ScanRowsOnce(pids[..n], pages, snap, commits);
      PageRowsOrdered(pids[n], SlotsOf(pages, pids[n]), snap, commits);
      assert pids[n] !in pids[..n];
      var front, last :=
        ScanRows(pids[..n], pages, snap, commits), PageRows(pids[n], SlotsOf(pages, pids[n]), snap, commits);
      forall i, j | 0 <= i < j < |front| ensures Precedes(pids, front[i].rid, front[j].rid) {
        PrecedesMore(pids, n, front[i].rid, front[j].rid);
      }
      forall i | 0 <= i < |front| ensures front[i].rid.page != pids[n] {
        ScanRowsHave(pids[..n], pages, snap, commits, front[i]);
      }
      forall i | 0 <= i < |last| ensures last[i].rid.page == pids[n] {
        PageRowsHave(pids[n], SlotsOf(pages, pids[n]), snap, commits, last[i]);
      }
      var rows := ScanRows(pids, pages, snap, commits);
      assert rows == front + last;
      hide ScanRows, PageRows, SlotsOf;
      forall i, j | 0 <= i < j < |rows| ensures Precedes(pids, rows[i].rid, rows[j].rid) {
        if j >= |front| > i {
          ScanRowsHave(pids[..n], pages, snap, commits, front[i]);
          var m :| 0 <= m < n && pids[..n][m] == front[i].rid.page;
          assert pids[m] == rows[i].rid.page && pids[n] == rows[j].rid.page;
        }
      }
    }
  }

  lemma PrecedesMore(pids: seq<PageId>, n: nat, a: RecordId, b: RecordId)
    requires n <= |pids| && Precedes(pids[..n], a, b)
    ensures Precedes(pids, a, b)
  {
    if a.page != b.page {
      var i, j :| 0 <= i < j < n && pids[..n][i] == a.page && pids[..n][j] == b.page;
      assert pids[i] == a.page && pids[j] == b.page;
    }
  }

  // ----- A scan after recovery -----

  lemma EndedOnce(log: seq<Rec>, lo: nat, hi: nat, t: TxnId)
    requires StoreHistory(log) && lo < hi < |log| && (log[lo].payload.Commit? || log[lo].payload.Abort?)
      && log[lo].txn == t
    ensures !((log[hi].payload.Commit? || log[hi].payload.Abort?) && log[hi].txn == t)
  {
    assert StoreRecOk(log[..hi], log[hi]) && log[..hi][lo] == log[lo];
  }

  lemma CommitOrAbort(log: seq<Rec>, t: TxnId)
    requires StoreHistory(log)
    ensures !(R.HasCommit(log, t) && R.HasAbort(log, t))
  {
    if R.HasCommit(log, t) && R.HasAbort(log, t) {
      var i :| 0 <= i < |log| && log[i].payload.Commit? && log[i].txn == t;
      var j :| 0 <= j < |log| && log[j].payload.Abort? && log[j].txn == t;
      if i < j { EndedOnce(log, i, j, t); } else { EndedOnce(log, j, i, t); }
      assert false;
    }
  }

  /** A snapshot taken after recovery, under the commit statuses recovery reported. */
  ghost predicate FreshAfter(report: R.Report, snap: Snapshot, commits: CommitLog) {
    && snap.txnId >= report.nextTxn && snap.xmax >= report.nextTxn
    && (forall t :: t in snap.active ==> t >= report.nextTxn)
    && (forall t :: FIRST_USER_TXN <= t < report.nextTxn ==>
          (StatusOf(commits, t) == Committed <==> t in report.committed && t !in report.aborted))
  }

  lemma FreshSees(log: seq<Rec>, report: R.Report, snap: Snapshot, commits: CommitLog, i: nat)
    requires StoreHistory(log) && R.ReportOk(log, report) && FreshAfter(report, snap, commits)
    requires i < |log| && (log[i].payload.Insert? || log[i].payload.Update? || log[i].payload.Delete?)
    ensures EffectVisible(log[i].txn, snap, commits) <==> R.HasCommit(log, log[i].txn)
  {
    hide R.HasCommit, R.HasAbort, R.HasData, R.MaxTxn, R.DirOk;
    R.MaxTxnIs(log);
    CommitOrAbort(log, log[i].txn);
    assert StoreRecOk(log[..i], log[i]);
    hide StoreHistory;
  }

  /** Recovery puts back the heap pages a scan will read. */
  lemma RecoveredSlots(log: seq<Rec>, disk: Disk, disk': Disk, p: PageId)
    requires StoreHistory(log) && CrashState(log, disk) && R.RedoneTo(log, disk, disk') && InHeap(log, p)
    ensures HeapBody(log, p).Some? && SlotsOf(disk', p) == HeapBody(log, p).value.slots
  {
    StoreHistoryIsHistory(log);
    HeapReplays(log, p);
    hide StoreHistory, History, Resume, InHeap;
    if R.Touched(log, p) {
      R.RecoveredPage(log, disk, disk', p);
    } else {
      ReplayUntouched(log, p);
      R.UntouchedNotStale(log, disk, p);
    }
  }

  /** A row's fate under a fresh snapshot is what the log says of the transactions that made and ended it. */
  lemma RecoveredRow(log: seq<Rec>, report: R.Report, snap: Snapshot, commits: CommitLog, h: nat, rid: RecordId,
                     d: seq<byte>)
    requires StoreHistory(log) && R.ReportOk(log, report) && FreshAfter(report, snap, commits)
    requires rid.page in R.HeapPages(log, h) && InHeap(log, rid.page)
    ensures LiveRow(log, h, rid, d) <==>
      RowVisible(Row(log, rid), snap, commits) && d == Row(log, rid).value[HEADER_SIZE..]
  {
    RowMeaning(log, rid);
    var row := Row(log, rid);
    if row.Some? {
      var hdr := DecodeHeader(row.value).value;
      InserterSeen(log, report, snap, commits, rid, row.value);
      if hdr.xmax != NO_TXN {
        StamperSeen(log, report, snap, commits, rid, row.value);
      }
    }
    hide StoreHistory, R.ReportOk, FreshAfter, InsertedBy, StampedBy, R.HasCommit, Row, EffectVisible, R.HeapPages,
      InHeap;
  }

  lemma InserterSeen(log: seq<Rec>, report: R.Report, snap: Snapshot, commits: CommitLog, rid: RecordId,
                     bytes: seq<byte>)
    requires StoreHistory(log) && R.ReportOk(log, report) && FreshAfter(report, snap, commits)
      && RowFacts(log, rid, Some(bytes))
    ensures var t := DecodeHeader(bytes).value.xmin; EffectVisible(t, snap, commits) <==> R.HasCommit(log, t)
  {
    hide StoreHistory, R.ReportOk, FreshAfter, R.HasCommit, EffectVisible;
    var t := DecodeHeader(bytes).value.xmin;
    assert InsertedBy(log, rid, t, bytes[HEADER_SIZE..]);
    var j :| 0 <= j < |log| && IsInsert(log[j], rid) && log[j].txn == t;
    FreshSees(log, report, snap, commits, j);
  }

  lemma StamperSeen(log: seq<Rec>, report: R.Report, snap: Snapshot, commits: CommitLog, rid: RecordId,
                    bytes: seq<byte>)
    requires StoreHistory(log) && R.ReportOk(log, report) && FreshAfter(report, snap, commits)
      && RowFacts(log, rid, Some(bytes))
    requires DecodeHeader(bytes).value.xmax != NO_TXN
    ensures var t := DecodeHeader(bytes).value.xmax; EffectVisible(t, snap, commits) <==> R.HasCommit(log, t)
  {
    hide StoreHistory, R.ReportOk, FreshAfter, R.HasCommit, EffectVisible, InsertedBy;
    var t := DecodeHeader(bytes).value.xmax;
    assert StampedBy(log, rid, t);
    var i :| 0 <= i < |log| && IsStamp(log[i], rid) && log[i].txn == t;
    FreshSees(log, report, snap, commits, i);
  }

  /**
   * After recovery from any crash state, a scan of any heap by a new transaction returns exactly the
   * live rows the log describes: nothing uncommitted, nothing superseded, nothing lost, nothing twice.
   */
  lemma RecoveredScan(log: seq<Rec>, disk: Disk, disk': Disk, report: R.Report, snap: Snapshot, commits: CommitLog,
                      h: nat)
    requires StoreHistory(log) && CrashState(log, disk) && R.RedoneTo(log, disk, disk')
    requires R.ReportOk(log, report) && FreshAfter(report, snap, commits)
    ensures var rows := ScanRows(R.HeapPages(log, h), disk', snap, commits);
      && (forall rid, d :: Found(rid, d) in rows <==> LiveRow(log, h, rid, d))
      && (forall i, j :: 0 <= i < j < |rows| ==> rows[i].rid != rows[j].rid)
      && InOrder(R.HeapPages(log, h), rows)
  {
    hide R.ReportOk, FreshAfter, CrashState, R.RedoneTo, StoreHistory;
    var pids := R.HeapPages(log, h);
    DirectoryDistinct(log, h);
    ScanRowsOnce(pids, disk', snap, commits);
    forall rid, d ensures Found(rid, d) in ScanRows(pids, disk', snap, commits) <==> LiveRow(log, h, rid, d) {
      ScanRowsHave(pids, disk', snap, commits, Found(rid, d));
      if rid.page in pids {
        DirectoryPages(log, h, rid.page);
        RecoveredSlots(log, disk, disk', rid.page);
        RecoveredRow(log, report, snap, commits, h, rid, d);
      }
    }
  }
}
