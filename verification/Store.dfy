/** The record store: rows inserted, superseded, read and scanned in place, with every change logged. */
module Store {
  import opened Bytes
  import opened Options
  import opened Visibility
  import opened RecordHeader
  import opened Redo
  import opened StoreLog
  import R = Recovery
  import SP = SlottedPage

  // ----- Version chains -----

  /** When a row was inserted: one past the position of its record, or 0 if it never was. */
  function Birth(log: seq<Rec>, rid: RecordId): nat {
    if log == [] then 0
    else if IsInsert(log[|log| - 1], rid) then |log|
    else Birth(log[..|log| - 1], rid)
  }

  lemma BirthStep(log: seq<Rec>, r: Rec, rid: RecordId)
    ensures Birth(log + [r], rid) == if IsInsert(r, rid) then |log| + 1 else Birth(log, rid)
  {
    assert (log + [r])[..|log|] == log;
  }

  /** Only heap pages hold rows. */
  lemma {:induction false} RowInHeap(log: seq<Rec>, rid: RecordId)
    requires StoreHistory(log) && Row(log, rid).Some?
    ensures InHeap(log, rid.page)
  {
    var k := |log| - 1;
    var pre, r := log[..k], log[k];
    assert log == pre + [r];
    StorePrefix(log, k);
    assert StoreRecOk(pre, r);
    ReplayAppend(pre, r, rid.page);
    InHeapStep(pre, r, rid.page);
    if Row(pre, rid).Some? {
      RowInHeap(pre, rid);
    }
  }

  ghost predicate Chained(log: seq<Rec>, rid: RecordId) {
    Row(log, rid).Some? && DecodeHeader(Row(log, rid).value).Some? ==>
      var prev := DecodeHeader(Row(log, rid).value).value.prev;
      prev.Some? ==> Row(log, prev.value).Some? && Birth(log, prev.value) < Birth(log, rid)
  }

  lemma {:induction false} BirthBound(log: seq<Rec>, rid: RecordId)
    ensures Birth(log, rid) <= |log|
  {
    if log != [] { BirthBound(log[..|log| - 1], rid); }
  }

  /** A row once placed stays, and a stamp leaves its back pointer alone. */
  lemma RowKept(log: seq<Rec>, r: Rec, rid: RecordId)
    requires StoreHistory(log) && StoreRecOk(log, r) && Row(log, rid).Some?
    ensures Row(log + [r], rid).Some? && Birth(log + [r], rid) == Birth(log, rid)
    ensures DecodeHeader(Row(log, rid).value).Some? ==>
      DecodeHeader(Row(log + [r], rid).value).Some?
      && DecodeHeader(Row(log + [r], rid).value).value.prev == DecodeHeader(Row(log, rid).value).value.prev
  {
    RowInHeap(log, rid);
    RowStep(log, r, rid);
    BirthStep(log, r, rid);
    if IsStamp(r, rid) {
      StampIsXmax(r.payload.before, r.txn);
    }
  }

  lemma {:induction false} ChainOlder(log: seq<Rec>, rid: RecordId)
    requires StoreHistory(log)
    ensures Chained(log, rid)
  {
    if log != [] && Row(log, rid).Some? {
      var k := |log| - 1;
      var pre, r := log[..k], log[k];
      assert log == pre + [r];
      StorePrefix(log, k);
      assert StoreRecOk(pre, r);
      RowInHeap(log, rid);
      InHeapStep(pre, r, rid.page);
      ChainOlder(pre, rid);
      ChainStep(pre, r, rid);
    }
  }

  lemma ChainStep(log: seq<Rec>, r: Rec, rid: RecordId)
    requires StoreHistory(log) && StoreRecOk(log, r) && InHeap(log + [r], rid.page) && Chained(log, rid)
    ensures Chained(log + [r], rid)
  {
    InHeapStep(log, r, rid.page);
    if !InHeap(log, rid.page) {
      ReplayUntouched(log, rid.page);
      ReplayAppend(log, r, rid.page);
    } else {
      RowStep(log, r, rid);
      BirthStep(log, r, rid);
      if Row(log, rid).Some? {
        RowKept(log, r, rid);
        if DecodeHeader(Row(log, rid).value).Some? && DecodeHeader(Row(log, rid).value).value.prev.Some? {
          RowKept(log, r, DecodeHeader(Row(log, rid).value).value.prev.value);
        }
      } else if IsInsert(r, rid) && DecodeHeader(r.payload.after).value.prev.Some? {
        var q := DecodeHeader(r.payload.after).value.prev.value;
        RowKept(log, r, q);
        BirthBound(log, q);
      }
    }
  }

  /** The newest version on the chain from `rid` that the snapshot sees. */
  ghost function ReadChain(log: seq<Rec>, rid: RecordId, snap: Snapshot, commits: CommitLog): Option<seq<byte>>
    requires StoreHistory(log)
    decreases Birth(log, rid)
  {
    ChainOlder(log, rid);
    var row := Row(log, rid);
    if row.None? || DecodeHeader(row.value).None? then None
    else if RowVisible(row, snap, commits) then Some(row.value[HEADER_SIZE..])
    else
      match DecodeHeader(row.value).value.prev
      case None => None
      case Some(q) => ReadChain(log, q, snap, commits)
  }

  function PrevRow(log: seq<Rec>, rid: RecordId): Option<RecordId> {
    var row := Row(log, rid);
    if row.None? || DecodeHeader(row.value).None? then None else DecodeHeader(row.value).value.prev
  }

  /** Rows each of which points back at the next. */
  ghost predicate BackPath(log: seq<Rec>, p: seq<RecordId>) {
    p != [] && forall i :: 0 <= i < |p| - 1 ==> PrevRow(log, p[i]) == Some(p[i + 1])
  }

  /** The path leads from `rid` past rows the snapshot does not see to one it does. */
  ghost predicate FirstSeen(log: seq<Rec>, p: seq<RecordId>, rid: RecordId, snap: Snapshot, commits: CommitLog) {
    && BackPath(log, p) && p[0] == rid
    && (forall i :: 0 <= i < |p| - 1 ==> !RowVisible(Row(log, p[i]), snap, commits))
    && RowVisible(Row(log, p[|p| - 1]), snap, commits)
  }

  /** What is read is the payload of the first row on the way back that is visible. */
  lemma {:induction false} ReadFirst(log: seq<Rec>, rid: RecordId, snap: Snapshot, commits: CommitLog)
    returns (p: seq<RecordId>)
    requires StoreHistory(log) && ReadChain(log, rid, snap, commits).Some?
    ensures FirstSeen(log, p, rid, snap, commits)
    ensures ReadChain(log, rid, snap, commits).value == Row(log, p[|p| - 1]).value[HEADER_SIZE..]
    decreases Birth(log, rid)
  {
    hide StoreHistory, Row, Birth;
    ChainOlder(log, rid);
    if RowVisible(Row(log, rid), snap, commits) {
      p := [rid];
    } else {
      var rest := ReadFirst(log, PrevRow(log, rid).value, snap, commits);
      p := [rid] + rest;
      hide DecodeHeader, RowVisible, ReadChain;
      forall i | 0 <= i < |p| - 1
        ensures PrevRow(log, p[i]) == Some(p[i + 1]) && !RowVisible(Row(log, p[i]), snap, commits)
      {
        if i > 0 { assert p[i] == rest[i - 1] && p[i + 1] == rest[i]; }
      }
    }
  }

  /** And nothing is read only if no row on the way back is visible. */
  lemma {:induction false} ReadNone(log: seq<Rec>, rid: RecordId, snap: Snapshot, commits: CommitLog,
                                    p: seq<RecordId>)
    requires StoreHistory(log) && ReadChain(log, rid, snap, commits).None? && BackPath(log, p) && p[0] == rid
    ensures !RowVisible(Row(log, p[|p| - 1]), snap, commits)
    decreases |p|
  {
    hide StoreHistory, Row, Birth;
    ChainOlder(log, rid);
    if |p| > 1 {
      assert PrevRow(log, p[0]) == Some(p[1]);
      forall i | 0 <= i < |p[1..]| - 1 ensures PrevRow(log, p[1..][i]) == Some(p[1..][i + 1]) {
        assert PrevRow(log, p[i + 1]) == Some(p[i + 2]);
      }
      ReadNone(log, p[1], snap, commits, p[1..]);
    }
  }

  // ----- What the tables and pages of a store say about its log -----

  ghost predicate DirValid(heaps: map<nat, seq<PageId>>, pageHeap: map<PageId, nat>, log: seq<Rec>) {
    && (forall h :: R.HeapPages(log, h) == if h in heaps then heaps[h] else [])
    && (forall p :: p in pageHeap <==> InHeap(log, p))
    && (forall p :: p in pageHeap ==> p in R.HeapPages(log, pageHeap[p]))
  }

  /** A heap page is what its records make of it; one with no records yet may be missing. */
  ghost predicate PageValid(pages: Disk, log: seq<Rec>, p: PageId) {
    if InHeap(log, p) then if p in pages then Replay(log, p) == Ok(pages[p]) else !R.Touched(log, p)
    else p in pages ==> pages[p].body.Index?
  }

  ghost predicate PagesValid(pages: Disk, log: seq<Rec>) {
    forall p :: PageValid(pages, log, p)
  }

  ghost predicate Logged(log: seq<Rec>, nextLsn: Lsn) {
    StoreHistory(log) && nextLsn > 0 && forall i :: 0 <= i < |log| ==> log[i].lsn < nextLsn
  }

  ghost predicate Allocated(log: seq<Rec>, nextPage: nat) {
    forall p: PageId :: InHeap(log, p) || R.Touched(log, p) ==> p < nextPage
  }

  lemma PageStep(pages: Disk, log: seq<Rec>, r: Rec, p: PageId)
    requires StoreHistory(log) && StoreRecOk(log, r) && PageValid(pages, log, p) && !r.payload.FullPageImage?
    requires r.payload.HeapPage? ==> r.payload.heapPage !in pages
    ensures !Touches(r, p) ==> PageValid(pages, log + [r], p)
    ensures Touches(r, p) ==> InHeap(log, p) && Replay(log, p).Ok?
    ensures Touches(r, p) ==> forall v :: Apply(Replay(log, p).value, r) == Ok(v) ==>
      PageValid(pages[p := v], log + [r], p)
  {
    ReplayAppend(log, r, p);
    InHeapStep(log, r, p);
    R.TouchedStep(map[], log, r, p);
    if Touches(r, p) {
      ApplyStore(log, r, p);
    }
  }

  /** A record that touches no page leaves the pages valid. */
  lemma PagesKept(pages: Disk, log: seq<Rec>, r: Rec)
    requires StoreHistory(log) && StoreRecOk(log, r) && PagesValid(pages, log) && !IsData(r)
    requires r.payload.HeapPage? ==> r.payload.heapPage !in pages
    ensures PagesValid(pages, log + [r])
  {
    forall p ensures PageValid(pages, log + [r], p) {
      assert PageValid(pages, log, p);
      PageStep(pages, log, r, p);
    }
  }

  lemma PagesStep(pages: Disk, log: seq<Rec>, r: Rec, v: Page)
    requires StoreHistory(log) && StoreRecOk(log, r) && PagesValid(pages, log)
    requires IsData(r) && !r.payload.FullPageImage?
    requires Replay(log, r.payload.page).Ok? && Apply(Replay(log, r.payload.page).value, r) == Ok(v)
    ensures PagesValid(pages[r.payload.page := v], log + [r])
  {
    var pages' := pages[r.payload.page := v];
    forall p ensures PageValid(pages', log + [r], p) {
      assert PageValid(pages, log, p);
      PageStep(pages, log, r, p);
      assert p != r.payload.page && PageValid(pages, log + [r], p) ==> PageValid(pages', log + [r], p);
    }
  }

  lemma DirKept(heaps: map<nat, seq<PageId>>, pageHeap: map<PageId, nat>, log: seq<Rec>, r: Rec)
    requires DirValid(heaps, pageHeap, log) && !r.payload.HeapPage?
    ensures DirValid(heaps, pageHeap, log + [r])
  {
    R.NoteHeaps(log, r);
    forall p ensures InHeap(log + [r], p) <==> InHeap(log, p) {
      InHeapStep(log, r, p);
    }
  }

  lemma DirAdd(heaps: map<nat, seq<PageId>>, pageHeap: map<PageId, nat>, log: seq<Rec>, r: Rec)
    requires DirValid(heaps, pageHeap, log) && r.payload.HeapPage? && !InHeap(log, r.payload.heapPage)
    ensures var h, p := r.payload.heap, r.payload.heapPage;
      DirValid(heaps[h := (if h in heaps then heaps[h] else []) + [p]], pageHeap[p := h], log + [r])
  {
    hide R.HeapPages, InHeap;
    var h, p := r.payload.heap, r.payload.heapPage;
    var heaps', pageHeap' := heaps[h := (if h in heaps then heaps[h] else []) + [p]], pageHeap[p := h];
    R.NoteHeaps(log, r);
    forall q ensures q in pageHeap' <==> InHeap(log + [r], q) {
      InHeapStep(log, r, q);
    }
    forall q | q in pageHeap' ensures q in R.HeapPages(log + [r], pageHeap'[q]) {
      assert q != p ==> q in R.HeapPages(log, pageHeap[q]);
    }
  }

  lemma AllocatedStep(log: seq<Rec>, r: Rec, n: nat)
    requires Allocated(log, n)
    requires r.payload.HeapPage? ==> r.payload.heapPage < n
    requires IsData(r) ==> r.payload.page < n
    ensures Allocated(log + [r], n)
  {
    forall p: PageId | InHeap(log + [r], p) || R.Touched(log + [r], p) ensures p < n {
      InHeapStep(log, r, p);
      R.TouchedStep(map[], log, r, p);
    }
  }

  /** A record changes the row it names and no other. */
  lemma RowsFrame(log: seq<Rec>, r: Rec, rid: RecordId)
    requires StoreHistory(log) && StoreRecOk(log, r) && !r.payload.FullPageImage?
    requires !IsInsert(r, rid) && !IsStamp(r, rid)
    ensures Row(log + [r], rid) == Row(log, rid)
  {
    if InHeap(log, rid.page) {
      RowStep(log, r, rid);
    } else {
      ReplayAppend(log, r, rid.page);
    }
  }

  ghost predicate SameRows(log: seq<Rec>, log': seq<Rec>) {
    forall q :: Row(log', q) == Row(log, q)
  }

  /** Row `rid` is new, holds `bytes`, and every other row is as it was. */
  ghost predicate AddedRow(log: seq<Rec>, log': seq<Rec>, rid: RecordId, bytes: seq<byte>) {
    Row(log, rid).None? && Row(log', rid) == Some(bytes) && forall q :: q != rid ==> Row(log', q) == Row(log, q)
  }

  /** The log of an insert: the Insert record, after a HeapPage record if the page is new. */
  ghost predicate InsertLogged(log: seq<Rec>, log': seq<Rec>, t: TxnId, rid: RecordId, bytes: seq<byte>) {
    && (|log'| == |log| + 1 || (|log'| == |log| + 2 && log'[|log|].payload.HeapPage?)) && log <= log'
    && log'[|log'| - 1].txn == t && log'[|log'| - 1].payload == Insert(rid.page, rid.slot, bytes)
  }

  /** The log of an update: that of the insert, then the stamp. */
  ghost predicate UpdateLogged(log: seq<Rec>, log': seq<Rec>, t: TxnId, rid: RecordId, rid': RecordId, bytes: seq<byte>)
  {
    && log' != [] && InsertLogged(log, log'[..|log'| - 1], t, rid', bytes)
    && log'[|log'| - 1].txn == t && IsStamp(log'[|log'| - 1], rid)
  }

  lemma LoggedOne(log: seq<Rec>, lsn: Lsn, t: TxnId, rid: RecordId, bytes: seq<byte>)
    ensures InsertLogged(log, log + [Rec(lsn, t, Insert(rid.page, rid.slot, bytes))], t, rid, bytes)
  {
  }

  lemma LoggedTwo(log: seq<Rec>, mid: seq<Rec>, lsn: Lsn, t: TxnId, rid: RecordId, bytes: seq<byte>)
    requires |mid| == |log| + 1 && log <= mid && mid[|log|].payload.HeapPage?
    ensures InsertLogged(log, mid + [Rec(lsn, t, Insert(rid.page, rid.slot, bytes))], t, rid, bytes)
  {
  }

  lemma LoggedStamp(log: seq<Rec>, mid: seq<Rec>, r: Rec, t: TxnId, rid: RecordId, rid': RecordId, bytes: seq<byte>)
    requires InsertLogged(log, mid, t, rid', bytes) && r.txn == t && IsStamp(r, rid)
    ensures UpdateLogged(log, mid + [r], t, rid, rid', bytes)
  {
    assert (mid + [r])[..|mid|] == mid;
  }

  lemma AddedAfterSame(log: seq<Rec>, mid: seq<Rec>, log': seq<Rec>, rid: RecordId, bytes: seq<byte>, t: TxnId)
    requires SameRows(log, mid)
    ensures NewVersion(log, t, bytes) ==> NewVersion(mid, t, bytes)
    ensures AddedRow(mid, log', rid, bytes) ==> AddedRow(log, log', rid, bytes)
  {
  }

  ghost predicate PagesBelow(pages: Disk, n: nat) {
    forall p :: p in pages ==> p < n
  }

  predicate HasRoom(pages: Disk, p: PageId, n: nat) {
    p in pages && pages[p].body.Heap? && SP.Fits(pages[p].body.page, n)
  }

  /** Where a record of `n` bytes goes: the newest page of the heap with room for it, else a new page. */
  ghost predicate Placed(pages: Disk, dir: seq<PageId>, nextPage: nat, n: nat, p: PageId) {
    || (exists k :: 0 <= k < |dir| && dir[k] == p && HasRoom(pages, p, n)
                    && forall j :: k < j < |dir| ==> !HasRoom(pages, dir[j], n))
    || (p == nextPage && forall j :: 0 <= j < |dir| ==> !HasRoom(pages, dir[j], n))
  }

  /** Bytes of a new version: a header naming its creator, unstamped, pointing back to an existing row. */
  ghost predicate NewVersion(log: seq<Rec>, t: TxnId, bytes: seq<byte>) {
    && |bytes| >= HEADER_SIZE
    && DecodeHeader(bytes).value.xmin == t && DecodeHeader(bytes).value.xmax == NO_TXN
    && (DecodeHeader(bytes).value.prev.Some? ==> Row(log, DecodeHeader(bytes).value.prev.value).Some?)
  }

  ghost predicate Running(log: seq<Rec>, t: TxnId) {
    FIRST_USER_TXN <= t < TWO64 && !Ended(log, t)
  }

  lemma RunningStep(log: seq<Rec>, r: Rec, t: TxnId)
    requires Running(log, t) && !r.payload.Commit? && !r.payload.Abort?
    ensures Running(log + [r], t)
  {
    R.NoteTxns(log, r);
  }

  predicate Writable(row: Option<seq<byte>>, snap: Snapshot, commits: CommitLog) {
    row.Some? && DecodeHeader(row.value).Some?
    && CheckWritable(DecodeHeader(row.value).value.xmin, DecodeHeader(row.value).value.xmax, snap, commits)
  }

  /** A row can be changed if and only if the snapshot sees its creator and nobody has stamped it. */
  lemma WritableIff(row: Option<seq<byte>>, snap: Snapshot, commits: CommitLog)
    ensures Writable(row, snap, commits) <==>
      && row.Some? && |row.value| >= HEADER_SIZE
      && EffectVisible(DecodeHeader(row.value).value.xmin, snap, commits)
      && DecodeHeader(row.value).value.xmax == NO_TXN
  {
    hide EffectVisible, FromLe, Decode6;
    if row.Some? && |row.value| >= HEADER_SIZE {
      var h := DecodeHeader(row.value).value;
      WritableIsUnstamped(h.xmin, h.xmax, snap, commits);
    }
  }

  lemma Directory(heaps: map<nat, seq<PageId>>, pageHeap: map<PageId, nat>, log: seq<Rec>, h: nat)
    requires DirValid(heaps, pageHeap, log)
    ensures R.HeapPages(log, h) == if h in heaps then heaps[h] else []
  {
  }

  lemma FitsEmpty(bytes: seq<byte>)
    ensures SP.PageInsert(SP.EmptyPage, bytes).None? <==> |bytes| > SP.MAX_RECORD_LEN
  {
  }

  lemma AllocatedMore(log: seq<Rec>, n: nat, pages: Disk)
    requires Allocated(log, n) && PagesBelow(pages, n)
    ensures Allocated(log, n + 1) && PagesBelow(pages, n + 1) && n !in pages
  {
  }

  lemma ListedPage(heaps: map<nat, seq<PageId>>, pageHeap: map<PageId, nat>, pages: Disk, log: seq<Rec>, h: nat,
                   p: PageId)
    requires DirValid(heaps, pageHeap, log) && PagesValid(pages, log)
    requires h in heaps && p in heaps[h] && p in pages && pages[p].body.Heap?
    ensures InHeap(log, p) && HeapBody(log, p) == Some(pages[p].body.page)
  {
    assert PageValid(pages, log, p);
  }

  /** The record at `rid`, as read from the pages in memory. */
  function RowOn(pages: Disk, rid: RecordId): Option<seq<byte>> {
    if rid.slot < |SlotsOf(pages, rid.page)| then SlotsOf(pages, rid.page)[rid.slot] else None
  }

  lemma RowOnPages(pages: Disk, log: seq<Rec>, rid: RecordId)
    requires PagesValid(pages, log) && StoreHistory(log)
    ensures RowOn(pages, rid) == Row(log, rid)
    ensures RowOn(pages, rid).Some? ==> InHeap(log, rid.page) && rid.page in pages && pages[rid.page].body.Heap?
  {
    assert PageValid(pages, log, rid.page);
    if !InHeap(log, rid.page) {
      if Row(log, rid).Some? {
        RowInHeap(log, rid);
      }
    } else if rid.page !in pages {
      ReplayUntouched(log, rid.page);
    }
  }

  /** Row `rid` now holds `bytes`, and every other row is as it was. */
  ghost predicate ChangedRow(log: seq<Rec>, log': seq<Rec>, rid: RecordId, bytes: seq<byte>) {
    Row(log', rid) == Some(bytes) && forall q :: q != rid ==> Row(log', q) == Row(log, q)
  }

  /** A new version by `t`, its back pointer and payload: the header is fresh and unstamped. */
  function VersionBytes(t: TxnId, prev: Option<RecordId>, payload: seq<byte>): seq<byte> {
    EncodeHeader(Header(t, NO_TXN, prev, 0)) + payload
  }

  lemma VersionReads(t: TxnId, prev: Option<RecordId>, payload: seq<byte>)
    requires t < TWO64 && (prev.Some? ==> prev.value.page < TWO32 && prev.value.slot < 0xFFFF)
    ensures var b := VersionBytes(t, prev, payload);
      && |b| == HEADER_SIZE + |payload| && b[HEADER_SIZE..] == payload
      && DecodeHeader(b).Some? && DecodeHeader(b).value.xmin == t && DecodeHeader(b).value.xmax == NO_TXN
      && DecodeHeader(b).value.prev == prev
  {
    HeaderRoundTrip(Header(t, NO_TXN, prev, 0), payload);
    if prev.Some? {
      Encode6RoundTripIff(prev.value);
    }
  }

  ghost predicate SlotsFit(body: Option<SP.Page>) {
    body.Some? ==> SP.SLOT_ARRAY_START + SP.SLOT_SIZE * |body.value.slots| <= body.value.freeEnd <= SP.PAGE_SIZE
  }

  /** Slot numbers stay far below the 16-bit limit of a back pointer. */
  lemma {:induction false} SlotsBounded(log: seq<Rec>, p: PageId)
    requires StoreHistory(log)
    ensures SlotsFit(HeapBody(log, p))
  {
    if log != [] {
      var k := |log| - 1;
      var pre, r := log[..k], log[k];
      assert log == pre + [r];
      StorePrefix(log, k);
      assert StoreRecOk(pre, r);
      SlotsBounded(pre, p);
      ReplayAppend(pre, r, p);
      if Touches(r, p) && InHeap(pre, p) { ApplyStore(pre, r, p); }
    }
  }

  lemma LoggedHistory(log: seq<Rec>, nextLsn: Lsn)
    requires Logged(log, nextLsn)
    ensures StoreHistory(log)
  {
  }

  /** Logging a change to a page that exists. */
  lemma LogGrows(pages: Disk, nextPage: nat, log: seq<Rec>, nextLsn: Lsn, r: Rec, v: Page)
    requires Logged(log, nextLsn) && StoreRecOk(log, r) && r.lsn == nextLsn
    requires Allocated(log, nextPage) && PagesBelow(pages, nextPage)
    requires IsData(r) && InHeap(log, r.payload.page)
    ensures Logged(log + [r], nextLsn + 1) && Allocated(log + [r], nextPage)
    ensures PagesBelow(pages[r.payload.page := v], nextPage)
  {
    StoreAppend(log, r);
    AllocatedStep(log, r, nextPage);
  }

  /** Placing a new version, on the pages and in the log. */
  lemma InsertStep(pages: Disk, log: seq<Rec>, r: Rec, page: SP.Page)
    requires StoreHistory(log) && PagesValid(pages, log)
    requires r.payload.Insert? && Running(log, r.txn) && NewVersion(log, r.txn, r.payload.after)
    requires InHeap(log, r.payload.page) && HeapBody(log, r.payload.page).Some?
    requires SP.PageInsert(HeapBody(log, r.payload.page).value, r.payload.after) == Some((page, r.payload.slot))
    ensures StoreRecOk(log, r)
    ensures PagesValid(pages[r.payload.page := Page(r.lsn, Heap(page))], log + [r])
    ensures AddedRow(log, log + [r], RecordId(r.payload.page, r.payload.slot), r.payload.after)
  {
    var p, rid := r.payload.page, RecordId(r.payload.page, r.payload.slot);
    assert StoreRecOk(log, r) && Touches(r, p);
    ApplyStore(log, r, p);
    RowStep(log, r, rid);
    forall q | q != rid ensures Row(log + [r], q) == Row(log, q) {
      RowsFrame(log, r, q);
    }
    PagesStep(pages, log, r, Page(r.lsn, Heap(page)));
  }

  /** The record of a stamp: an update logs both images, a delete only the one before. */
  function StampRec(lsn: Lsn, t: TxnId, rid: RecordId, before: seq<byte>, isDelete: bool): Rec
    requires |before| >= HEADER_SIZE
  {
    Rec(lsn, t, if isDelete then Delete(rid.page, rid.slot, before)
                else Update(rid.page, rid.slot, before, StampBytes(before, t)))
  }

  /** Stamping a row that has no stamp, on the pages and in the log. */
  lemma StampStep(pages: Disk, log: seq<Rec>, t: TxnId, rid: RecordId, r: Rec)
    requires StoreHistory(log) && PagesValid(pages, log) && Running(log, t)
    requires Row(log, rid).Some? && |Row(log, rid).value| >= HEADER_SIZE
    requires DecodeHeader(Row(log, rid).value).value.xmax == NO_TXN
    requires exists d :: r == StampRec(r.lsn, t, rid, Row(log, rid).value, d)
    ensures StoreRecOk(log, r) && rid.page in pages && pages[rid.page].body.Heap?
    ensures var after := StampBytes(Row(log, rid).value, t);
      var edited := SP.PageEdit(pages[rid.page].body.page, rid.slot, after);
      edited.Some? && PagesValid(pages[rid.page := Page(r.lsn, Heap(edited.value))], log + [r])
      && ChangedRow(log, log + [r], rid, after)
  {
    RowOnPages(pages, log, rid);
    assert StoreRecOk(log, r) && Touches(r, rid.page);
    ApplyStore(log, r, rid.page);
    assert PageValid(pages, log, rid.page);
    RowStep(log, r, rid);
    forall q | q != rid ensures Row(log + [r], q) == Row(log, q) {
      RowsFrame(log, r, q);
    }
    PagesStep(pages, log, r, Apply(Replay(log, rid.page).value, r).value);
  }

  /** The effect of an update: a new version pointing back to `rid`, and `rid` stamped by the same transaction. */
  ghost predicate Superseded(log: seq<Rec>, log': seq<Rec>, rid: RecordId, rid': RecordId, t: TxnId, payload: seq<byte>)
  {
    && Row(log, rid).Some? && |Row(log, rid).value| >= HEADER_SIZE && Row(log, rid').None?
    && Row(log', rid') == Some(VersionBytes(t, Some(rid), payload))
    && Row(log', rid) == Some(StampBytes(Row(log, rid).value, t))
    && (forall q :: q != rid && q != rid' ==> Row(log', q) == Row(log, q))
  }

  lemma AddThenStamp(log: seq<Rec>, mid: seq<Rec>, log': seq<Rec>, rid: RecordId, rid': RecordId, t: TxnId,
                     payload: seq<byte>)
    requires AddedRow(log, mid, rid', VersionBytes(t, Some(rid), payload))
    requires Row(log, rid).Some? && |Row(log, rid).value| >= HEADER_SIZE
    ensures Row(mid, rid) == Row(log, rid)
    ensures ChangedRow(mid, log', rid, StampBytes(Row(log, rid).value, t)) ==>
      Superseded(log, log', rid, rid', t, payload)
  {
  }

  /** A row that exists can be pointed back to while pages are numbered below 2^32. */
  lemma BackPointer(pages: Disk, log: seq<Rec>, nextPage: nat, rid: RecordId)
    requires StoreHistory(log) && PagesValid(pages, log) && Allocated(log, nextPage) && nextPage <= TWO32
    requires Row(log, rid).Some?
    ensures rid.page < TWO32 && rid.slot < 0xFFFF && InHeap(log, rid.page)
  {
    RowInHeap(log, rid);
    SlotsBounded(log, rid.page);
  }

  lemma UpdateVersion(log: seq<Rec>, t: TxnId, rid: RecordId, payload: seq<byte>)
    requires t < TWO64 && rid.page < TWO32 && rid.slot < 0xFFFF && Row(log, rid).Some?
    ensures NewVersion(log, t, VersionBytes(t, Some(rid), payload))
    ensures |VersionBytes(t, Some(rid), payload)| == HEADER_SIZE + |payload|
  {
    VersionReads(t, Some(rid), payload);
  }

  // ----- Seeding the directory -----

  /** The pages of heap `h` in a directory listing. */
  function Listed(dir: seq<R.HeapEntry>, h: nat): seq<PageId> {
    if dir == [] then []
    else Listed(dir[..|dir| - 1], h) + if dir[|dir| - 1].heap == h then dir[|dir| - 1].pages else []
  }

  lemma ListedStep(dir: seq<R.HeapEntry>, e: R.HeapEntry, h: nat)
    ensures Listed(dir + [e], h) == Listed(dir, h) + if e.heap == h then e.pages else []
  {
    assert (dir + [e])[..|dir|] == dir;
  }

  ghost predicate Seeded(heaps: map<nat, seq<PageId>>, pageHeap: map<PageId, nat>, dir: seq<R.HeapEntry>) {
    && (forall h :: Listed(dir, h) == if h in heaps then heaps[h] else [])
    && (forall p, h :: p in Listed(dir, h) ==> p in pageHeap)
    && (forall p :: p in pageHeap ==> p in Listed(dir, pageHeap[p]))
  }

  lemma SeededNone(dir: seq<R.HeapEntry>)
    ensures Seeded(map[], map[], dir[..0])
  {
  }

  lemma SeededStep(heaps: map<nat, seq<PageId>>, was: map<PageId, nat>, now: map<PageId, nat>, dir: seq<R.HeapEntry>,
                   e: R.HeapEntry)
    requires Seeded(heaps, was, dir)
    requires forall p :: p in now <==> p in was || p in e.pages
    requires forall p :: p in now ==> now[p] == if p in e.pages then e.heap else was[p]
    ensures Seeded(heaps[e.heap := (if e.heap in heaps then heaps[e.heap] else []) + e.pages], now, dir + [e])
  {
    forall h ensures Listed(dir + [e], h) == Listed(dir, h) + if e.heap == h then e.pages else [] {
      ListedStep(dir, e, h);
    }
    hide Listed;
  }

  lemma DirEntry(dir: seq<R.HeapEntry>, index: map<nat, nat>, log: seq<Rec>, k: nat)
    requires R.DirOk(dir, index, log) && k < |dir|
    ensures dir[k].pages == R.HeapPages(log, dir[k].heap)
    ensures forall h :: h in index && index[h] == k <==> h == dir[k].heap
  {
  }

  lemma {:induction false} ListedIs(dir: seq<R.HeapEntry>, index: map<nat, nat>, log: seq<Rec>, n: nat, h: nat)
    requires R.DirOk(dir, index, log) && n <= |dir|
    ensures Listed(dir[..n], h) == if h in index && index[h] < n then R.HeapPages(log, h) else []
  {
    if n > 0 {
      ListedIs(dir, index, log, n - 1, h);
      assert dir[..n] == dir[..n - 1] + [dir[n - 1]];
      ListedStep(dir[..n - 1], dir[n - 1], h);
      DirEntry(dir, index, log, n - 1);
      hide Listed, R.HeapPages, R.DirOk;
    }
  }

  lemma SeededValid(heaps: map<nat, seq<PageId>>, pageHeap: map<PageId, nat>, dir: seq<R.HeapEntry>, log: seq<Rec>)
    requires Seeded(heaps, pageHeap, dir) && exists index :: R.DirOk(dir, index, log)
    ensures DirValid(heaps, pageHeap, log)
  {
    var index :| R.DirOk(dir, index, log);
    assert dir[..|dir|] == dir;
    forall h ensures Listed(dir, h) == R.HeapPages(log, h) {
      ListedIs(dir, index, log, |dir|, h);
      DirCovers(dir, index, log, h);
    }
    hide Listed, R.HeapPages, R.DirOk, InHeap;
    forall p ensures p in pageHeap <==> InHeap(log, p) {
      if p in pageHeap {
        ListedInHeap(log, pageHeap[p], p);
      }
      if InHeap(log, p) {
        var h := HeapOf(log, p);
        assert p in Listed(dir, h);
      }
    }
  }

  lemma ListedInHeap(log: seq<Rec>, h: nat, p: PageId)
    requires p in R.HeapPages(log, h)
    ensures InHeap(log, p)
  {
    DirectoryPages(log, h, p);
  }

  lemma HeapOf(log: seq<Rec>, p: PageId) returns (h: nat)
    requires InHeap(log, p)
    ensures p in R.HeapPages(log, h)
  {
    var i :| 0 <= i < |log| && log[i].payload.HeapPage? && log[i].payload.heapPage == p;
    h := log[i].payload.heap;
    DirectoryPages(log, h, p);
    assert log[i].payload == HeapPage(h, p);
  }

  lemma DirCovers(dir: seq<R.HeapEntry>, index: map<nat, nat>, log: seq<Rec>, h: nat)
    requires R.DirOk(dir, index, log)
    ensures if h in index then index[h] < |dir| else R.HeapPages(log, h) == []
  {
  }

  /** Recovery leaves a disk a store can be opened on. */
  lemma RecoveredPagesValid(log: seq<Rec>, disk: Disk, disk': Disk)
    requires StoreHistory(log) && CrashState(log, disk) && R.RedoneTo(log, disk, disk')
    ensures PagesValid(disk', log)
  {
    StoreHistoryIsHistory(log);
    forall p ensures PageValid(disk', log, p) {
      HeapReplays(log, p);
      if R.Touched(log, p) {
        R.RecoveredPage(log, disk, disk', p);
      } else {
        R.UntouchedNotStale(log, disk, p);
      }
    }
  }

  class RecordStore {
    var pages: Disk
    var heaps: map<nat, seq<PageId>>
    var pageHeap: map<PageId, nat>
    var nextPage: nat
    var log: seq<Rec>
    var nextLsn: Lsn

    ghost predicate Valid()
      reads this
    {
      Logged(log, nextLsn) && PagesValid(pages, log) && DirValid(heaps, pageHeap, log) && Allocated(log, nextPage)
      && PagesBelow(pages, nextPage)
    }

    constructor ()
      ensures Valid() && log == []
    {
      pages, heaps, pageHeap, nextPage, log, nextLsn := map[], map[], map[], 0, [], 1;
    }

    /** `seed_heap_directory` over the pages recovery left. */
    constructor Recovered(durable: seq<Rec>, recovered: Disk, dir: seq<R.HeapEntry>, pageCount: nat, lsn: Lsn)
      requires Logged(durable, lsn) && PagesValid(recovered, durable)
      requires Allocated(durable, pageCount) && PagesBelow(recovered, pageCount)
      requires exists index :: R.DirOk(dir, index, durable)
      ensures Valid() && log == durable && pages == recovered && nextPage == pageCount
    {
      hide Logged, PagesValid, Allocated, PagesBelow, R.HeapPages, InHeap, R.DirOk, Seeded;
      pages, nextPage, log, nextLsn := recovered, pageCount, durable, lsn;
      var hs: map<nat, seq<PageId>>, ph: map<PageId, nat> := map[], map[];
      assert Seeded(hs, ph, dir[..0]) by { SeededNone(dir); }
      for i := 0 to |dir|
        invariant Seeded(hs, ph, dir[..i])
      {
        assert dir[..i + 1] == dir[..i] + [dir[i]];
        ghost var was := ph;
        for j := 0 to |dir[i].pages|
          invariant forall p :: p in ph <==> p in was || p in dir[i].pages[..j]
          invariant forall p :: p in ph ==> ph[p] == if p in dir[i].pages[..j] then dir[i].heap else was[p]
        {
          assert dir[i].pages[..j + 1] == dir[i].pages[..j] + [dir[i].pages[j]];
          ph := ph[dir[i].pages[j] := dir[i].heap];
        }
        assert dir[i].pages[..|dir[i].pages|] == dir[i].pages;
        SeededStep(hs, was, ph, dir[..i], dir[i]);
        hs := hs[dir[i].heap := (if dir[i].heap in hs then hs[dir[i].heap] else []) + dir[i].pages];
      }
      assert dir[..|dir|] == dir;
      SeededValid(hs, ph, dir, durable);
      heaps, pageHeap := hs, ph;
    }

    /** The end record of a transaction. */
    method EndTxn(t: TxnId, committed: bool)
      requires Valid() && Running(log, t)
      modifies this`log, this`nextLsn
      ensures Valid() && SameRows(old(log), log)
      ensures log == old(log) + [Rec(old(nextLsn), t, if committed then Commit else Abort)]
    {
      var r := Rec(nextLsn, t, if committed then Commit else Abort);
      assert StoreRecOk(log, r);
      PagesKept(pages, log, r);
      StoreAppend(log, r);
      AllocatedStep(log, r, nextPage);
      DirKept(heaps, pageHeap, log, r);
      forall q ensures Row(log + [r], q) == Row(log, q) {
        RowsFrame(log, r, q);
      }
      hide StoreHistory, StoreRecOk, PagesValid, Row, Allocated, InHeap, Running, DirValid;
      log, nextLsn := log + [r], nextLsn + 1;
    }

    /** Place an insert record and the changed page. */
    method LogInsert(t: TxnId, p: PageId, slot: nat, page: SP.Page, bytes: seq<byte>)
      requires Logged(log, nextLsn) && PagesValid(pages, log) && Allocated(log, nextPage) && PagesBelow(pages, nextPage)
      requires Running(log, t) && NewVersion(log, t, bytes)
      requires InHeap(log, p) && HeapBody(log, p).Some?
      requires SP.PageInsert(HeapBody(log, p).value, bytes) == Some((page, slot))
      modifies this`pages, this`log, this`nextLsn
      ensures Logged(log, nextLsn) && PagesValid(pages, log) && Allocated(log, nextPage) && PagesBelow(pages, nextPage)
      ensures log == old(log) + [Rec(old(nextLsn), t, Insert(p, slot, bytes))]
      ensures Running(log, t) && AddedRow(old(log), log, RecordId(p, slot), bytes)
    {
      hide StoreHistory, Logged, PagesValid, PagesBelow, Allocated, InHeap, Running, NewVersion, AddedRow, HeapBody;
      var r := Rec(nextLsn, t, Insert(p, slot, bytes));
      LoggedHistory(log, nextLsn);
      InsertStep(pages, log, r, page);
      LogGrows(pages, nextPage, log, nextLsn, r, Page(nextLsn, Heap(page)));
      RunningStep(log, r, t);
      log, nextLsn := log + [r], nextLsn + 1;
      pages := pages[p := Page(nextLsn - 1, Heap(page))];
    }

    /** Record that page `p` belongs to heap `h`; the tables are updated by the caller. */
    method LogHeapPage(t: TxnId, h: nat, p: PageId)
      requires Logged(log, nextLsn) && PagesValid(pages, log) && DirValid(heaps, pageHeap, log)
      requires Allocated(log, p) && p < nextPage && Allocated(log, nextPage) && p !in pages && Running(log, t)
      modifies this`log, this`nextLsn
      ensures Logged(log, nextLsn) && PagesValid(pages, log) && Allocated(log, nextPage) && Running(log, t)
      ensures DirValid(heaps[h := (if h in heaps then heaps[h] else []) + [p]], pageHeap[p := h], log)
      ensures InHeap(log, p) && HeapBody(log, p) == Some(SP.EmptyPage)
      ensures old(log) <= log && SameRows(old(log), log)
      ensures |log| == |old(log)| + 1 && log[|old(log)|].payload.HeapPage?
    {
      var r := Rec(nextLsn, t, HeapPage(h, p));
      assert !InHeap(log, p) && !R.Touched(log, p);
      assert StoreRecOk(log, r);
      PagesKept(pages, log, r);
      StoreAppend(log, r);
      AllocatedStep(log, r, nextPage);
      RunningStep(log, r, t);
      DirAdd(heaps, pageHeap, log, r);
      InHeapStep(log, r, p);
      ReplayUntouched(log, p);
      ReplayAppend(log, r, p);
      forall q ensures Row(log + [r], q) == Row(log, q) {
        RowsFrame(log, r, q);
      }
      hide StoreHistory, StoreRecOk, PagesValid, Row, Allocated, InHeap, Running, DirValid;
      log, nextLsn := log + [r], nextLsn + 1;
    }

    /** `insert_bytes`: try the heap's pages, newest first, else start a new page. */
    method InsertBytes(t: TxnId, h: nat, bytes: seq<byte>) returns (rid: Option<RecordId>)
      requires Valid() && Running(log, t) && NewVersion(log, t, bytes)
      modifies this
      ensures Valid() && Running(log, t) && old(log) <= log && nextPage <= old(nextPage) + 1
      ensures rid.None? <==> |bytes| > SP.MAX_RECORD_LEN
      ensures rid.None? ==> log == old(log)
      ensures rid.Some? ==> InsertLogged(old(log), log, t, rid.value, bytes)
      ensures rid.Some? ==>
        && AddedRow(old(log), log, rid.value, bytes)
        && rid.value.page in R.HeapPages(log, h)
        && Placed(old(pages), R.HeapPages(old(log), h), old(nextPage), |bytes|, rid.value.page)
    {
      var found := FindRoom(h, |bytes|);
      Directory(heaps, pageHeap, log, h);
      FitsEmpty(bytes);
      hide Logged, PagesValid, DirValid, Allocated, Running, NewVersion, AddedRow, PagesBelow, Placed, R.HeapPages,
        InHeap, HeapBody, StoreRecOk, InsertLogged;
      ghost var lsn := nextLsn;
      match found {
        case None => rid := InsertOnNewPage(t, h, bytes);
        case Some(p) =>
          ListedPage(heaps, pageHeap, pages, log, h, p);
          var placed := SP.PageInsert(pages[p].body.page, bytes);
          LogInsert(t, p, placed.value.1, placed.value.0, bytes);
          LoggedOne(old(log), lsn, t, RecordId(p, placed.value.1), bytes);
          DirKept(heaps, pageHeap, old(log), log[|old(log)|]);
          Directory(heaps, pageHeap, log, h);
          rid := Some(RecordId(p, placed.value.1));
      }
    }

    /** The loop of `insert_bytes` over the heap's pages, newest first. */
    method FindRoom(h: nat, n: nat) returns (found: Option<PageId>)
      ensures var dir := if h in heaps then heaps[h] else [];
        match found
        case Some(p) => p in dir && HasRoom(pages, p, n) && Placed(pages, dir, nextPage, n, p)
        case None => forall j :: 0 <= j < |dir| ==> !HasRoom(pages, dir[j], n)
    {
      var dir := if h in heaps then heaps[h] else [];
      var k := |dir|;
      while k > 0
        invariant 0 <= k <= |dir|
        invariant forall j :: k <= j < |dir| ==> !HasRoom(pages, dir[j], n)
      {
        k := k - 1;
        if HasRoom(pages, dir[k], n) {
          return Some(dir[k]);
        }
      }
      found := None;
    }

    /** The tail of `insert_bytes`: log the page's membership of the heap, then the record. */
    method InsertOnNewPage(t: TxnId, h: nat, bytes: seq<byte>) returns (rid: Option<RecordId>)
      requires Valid() && Running(log, t) && NewVersion(log, t, bytes)
      modifies this
      ensures Valid() && Running(log, t) && old(log) <= log && nextPage == old(nextPage) + 1
      ensures rid.None? <==> |bytes| > SP.MAX_RECORD_LEN
      ensures rid.None? ==> log == old(log)
      ensures rid.Some? ==> InsertLogged(old(log), log, t, rid.value, bytes)
      ensures rid.Some? ==>
        && AddedRow(old(log), log, rid.value, bytes)
        && rid.value.page in R.HeapPages(log, h) && rid.value.page == old(nextPage)
    {
      FitsEmpty(bytes);
      AllocatedMore(log, nextPage, pages);
      hide Logged, PagesValid, DirValid, Allocated, Running, NewVersion, AddedRow, PagesBelow, R.HeapPages,
        SP.PageInsert, InsertLogged;
      var p := nextPage;
      nextPage := nextPage + 1;
      match SP.PageInsert(SP.EmptyPage, bytes) {
        case None => rid := None;
        case Some((page, slot)) =>
          AddPage(t, h, p, slot, page, bytes);
          rid := Some(RecordId(p, slot));
      }
    }

    method AddPage(t: TxnId, h: nat, p: PageId, slot: nat, page: SP.Page, bytes: seq<byte>)
      requires Valid() && Running(log, t) && NewVersion(log, t, bytes)
      requires Allocated(log, p) && p < nextPage && p !in pages
      requires SP.PageInsert(SP.EmptyPage, bytes) == Some((page, slot))
      modifies this`pages, this`log, this`nextLsn, this`heaps, this`pageHeap
      ensures Valid() && Running(log, t) && old(log) <= log
      ensures AddedRow(old(log), log, RecordId(p, slot), bytes) && p in R.HeapPages(log, h)
      ensures InsertLogged(old(log), log, t, RecordId(p, slot), bytes)
    {
      hide Logged, PagesValid, DirValid, Allocated, Running, NewVersion, AddedRow, SameRows, PagesBelow;
      hide R.HeapPages, InHeap, HeapBody, StoreRecOk, SP.PageInsert, InsertLogged;
      LogHeapPage(t, h, p);
      ghost var listed, lsn := log, nextLsn;
      AddedAfterSame(old(log), listed, listed, RecordId(p, slot), bytes, t);
      LogInsert(t, p, slot, page, bytes);
      LoggedTwo(old(log), listed, lsn, t, RecordId(p, slot), bytes);
      AddedAfterSame(old(log), listed, log, RecordId(p, slot), bytes, t);
      heaps := heaps[h := (if h in heaps then heaps[h] else []) + [p]];
      pageHeap := pageHeap[p := h];
      DirKept(heaps, pageHeap, listed, log[|listed|]);
      Directory(heaps, pageHeap, log, h);
    }

    method InsertRow(t: TxnId, h: nat, payload: seq<byte>) returns (rid: Option<RecordId>)
      requires Valid() && Running(log, t)
      modifies this
      ensures Valid() && Running(log, t) && old(log) <= log && nextPage <= old(nextPage) + 1
      ensures rid.None? <==> HEADER_SIZE + |payload| > SP.MAX_RECORD_LEN
      ensures rid.None? ==> log == old(log)
      ensures rid.Some? ==> InsertLogged(old(log), log, t, rid.value, VersionBytes(t, None, payload))
      ensures rid.Some? ==>
        && AddedRow(old(log), log, rid.value, VersionBytes(t, None, payload))
        && rid.value.page in R.HeapPages(log, h)
        && Placed(old(pages), R.HeapPages(old(log), h), old(nextPage), HEADER_SIZE + |payload|, rid.value.page)
    {
      VersionReads(t, None, payload);
      rid := InsertBytes(t, h, VersionBytes(t, None, payload));
    }

    /** `stamp_xmax`: overwrite bytes 8..16 of the record in place and log it. */
    method StampXmax(t: TxnId, rid: RecordId, isDelete: bool)
      requires Valid() && Running(log, t)
      requires Row(log, rid).Some? && |Row(log, rid).value| >= HEADER_SIZE
      requires DecodeHeader(Row(log, rid).value).value.xmax == NO_TXN
      modifies this`pages, this`log, this`nextLsn
      ensures Valid() && Running(log, t)
      ensures ChangedRow(old(log), log, rid, StampBytes(Row(old(log), rid).value, t))
      ensures var before := Row(old(log), rid).value;
        log == old(log) + [StampRec(old(nextLsn), t, rid, before, isDelete)]
    {
      hide StoreHistory, Logged, PagesValid, PagesBelow, Allocated, InHeap, Running, DirValid, ChangedRow, StampBytes,
        HeapBody, DecodeHeader;
      LoggedHistory(log, nextLsn);
      RowOnPages(pages, log, rid);
      var before := RowOn(pages, rid).value;
      var r := StampRec(nextLsn, t, rid, before, isDelete);
      StampStep(pages, log, t, rid, r);
      var page := Page(nextLsn, Heap(SP.PageEdit(pages[rid.page].body.page, rid.slot, StampBytes(before, t)).value));
      LogGrows(pages, nextPage, log, nextLsn, r, page);
      DirKept(heaps, pageHeap, log, r);
      RunningStep(log, r, t);
      log, nextLsn := log + [r], nextLsn + 1;
      pages := pages[rid.page := page];
    }

    /**
     * Supersede the version at `rid`; fails, changing nothing, unless it is writable and the new version fits
     * a page.
     */
    method UpdateRow(snap: Snapshot, commits: CommitLog, rid: RecordId, payload: seq<byte>)
      returns (rid': Option<RecordId>)
      requires Valid() && Running(log, snap.txnId) && nextPage <= TWO32
      modifies this
      ensures Valid() && Running(log, snap.txnId) && old(log) <= log && nextPage <= old(nextPage) + 1
      ensures rid'.None? <==>
        !Writable(Row(old(log), rid), snap, commits) || HEADER_SIZE + |payload| > SP.MAX_RECORD_LEN
      ensures rid'.None? ==> log == old(log)
      ensures rid'.Some? ==> Superseded(old(log), log, rid, rid'.value, snap.txnId, payload)
      ensures rid'.Some? ==>
        UpdateLogged(old(log), log, snap.txnId, rid, rid'.value, VersionBytes(snap.txnId, Some(rid), payload))
      ensures rid'.Some? ==> rid.page in old(pageHeap) && rid'.value.page in R.HeapPages(log, old(pageHeap)[rid.page])
    {
      hide Logged, StoreHistory, PagesBelow, Allocated, Running, NewVersion, AddedRow, ChangedRow, Superseded,
        R.HeapPages;
      hide CheckWritable, PagesValid, HeapBody, InHeap, DecodeHeader, VersionBytes, StampBytes, Placed, InsertLogged,
        UpdateLogged;
      LoggedHistory(log, nextLsn);
      RowOnPages(pages, log, rid);
      var t := snap.txnId;
      if rid.page !in pageHeap || !Writable(RowOn(pages, rid), snap, commits) {
        return None;
      }
      BackPointer(pages, log, nextPage, rid);
      WritableIff(Row(log, rid), snap, commits);
      RunningId(log, t);
      UpdateVersion(log, t, rid, payload);
      hide DirValid, Writable;
      rid' := InsertBytes(t, pageHeap[rid.page], VersionBytes(t, Some(rid), payload));
      if rid'.Some? {
        ghost var mid := log;
        AddThenStamp(old(log), mid, mid, rid, rid'.value, t, payload);
        StampXmax(t, rid, false);
        LoggedStamp(old(log), mid, log[|mid|], t, rid, rid'.value, VersionBytes(t, Some(rid), payload));
        AddThenStamp(old(log), mid, log, rid, rid'.value, t, payload);
        DirectorySame(mid, log, old(pageHeap)[rid.page]);
      }
    }

    method DeleteRow(snap: Snapshot, commits: CommitLog, rid: RecordId) returns (ok: bool)
      requires Valid() && Running(log, snap.txnId)
      modifies this
      ensures Valid() && Running(log, snap.txnId) && nextPage == old(nextPage)
      ensures ok <==> Writable(Row(old(log), rid), snap, commits)
      ensures !ok ==> log == old(log)
      ensures ok ==> Row(old(log), rid).Some? && |Row(old(log), rid).value| >= HEADER_SIZE
      ensures ok ==> ChangedRow(old(log), log, rid, StampBytes(Row(old(log), rid).value, snap.txnId))
      ensures ok ==> log == old(log) + [StampRec(old(nextLsn), snap.txnId, rid, Row(old(log), rid).value, true)]
    {
      hide Logged, StoreHistory, PagesBelow, Allocated, Running, ChangedRow, CheckWritable, PagesValid, HeapBody,
        InHeap, StampBytes, DirValid, DecodeHeader;
      LoggedHistory(log, nextLsn);
      RowOnPages(pages, log, rid);
      ok := Writable(RowOn(pages, rid), snap, commits);
      if ok {
        WritableIff(Row(log, rid), snap, commits);
        StampXmax(snap.txnId, rid, true);
      }
    }

    /** `read`: walk the version chain to the first version the snapshot sees. */
    method ReadRow(rid: RecordId, snap: Snapshot, commits: CommitLog) returns (found: Option<seq<byte>>)
      requires Valid()
      ensures found == ReadChain(log, rid, snap, commits)
      ensures found.Some? ==> exists p ::
        FirstSeen(log, p, rid, snap, commits) && found.value == Row(log, p[|p| - 1]).value[HEADER_SIZE..]
      ensures found.None? ==>
        forall p :: BackPath(log, p) && p[0] == rid ==> !RowVisible(Row(log, p[|p| - 1]), snap, commits)
    {
      found := WalkBack(rid, snap, commits);
      hide StoreHistory, Row, ReadChain, RowVisible, PrevRow;
      LoggedHistory(log, nextLsn);
      if found.Some? {
        ghost var p := ReadFirst(log, rid, snap, commits);
      } else {
        forall p | BackPath(log, p) && p[0] == rid ensures !RowVisible(Row(log, p[|p| - 1]), snap, commits) {
          ReadNone(log, rid, snap, commits, p);
        }
      }
    }

    method WalkBack(rid: RecordId, snap: Snapshot, commits: CommitLog) returns (found: Option<seq<byte>>)
      requires Valid()
      ensures found == ReadChain(log, rid, snap, commits)
    {
      var cursor := Some(rid);
      found := None;
      while cursor.Some?
        invariant ReadChain(log, rid, snap, commits) ==
          if cursor.Some? then ReadChain(log, cursor.value, snap, commits) else None
        decreases if cursor.Some? then Birth(log, cursor.value) + 1 else 0
      {
        RowOnPages(pages, log, cursor.value);
        ChainOlder(log, cursor.value);
        var row := RowOn(pages, cursor.value);
        if row.None? || DecodeHeader(row.value).None? {
          return None;
        }
        if RowVisible(row, snap, commits) {
          return Some(row.value[HEADER_SIZE..]);
        }
        cursor := DecodeHeader(row.value).value.prev;
      }
    }

    /** `scan`: the visible rows of a heap, page by page and slot by slot. */
    method Scan(h: nat, snap: Snapshot, commits: CommitLog) returns (out: seq<Found>)
      requires Valid()
      ensures out == ScanRows(R.HeapPages(log, h), pages, snap, commits)
      ensures forall i, j :: 0 <= i < j < |out| ==> out[i].rid != out[j].rid
      ensures InOrder(R.HeapPages(log, h), out)
      ensures forall f :: f in out <==>
        f.rid.page in R.HeapPages(log, h) && RowVisible(Row(log, f.rid), snap, commits)
        && f.payload == Row(log, f.rid).value[HEADER_SIZE..]
    {
      var pids := if h in heaps then heaps[h] else [];
      Directory(heaps, pageHeap, log, h);
      out := [];
      for i := 0 to |pids|
        invariant out == ScanRows(pids[..i], pages, snap, commits)
      {
        assert pids[..i + 1][..i] == pids[..i];
        var rows := ScanPage(pids[i], snap, commits);
        out := out + rows;
      }
      assert pids[..|pids|] == pids;
      ScanMeaning(pages, log, h, snap, commits);
    }

    method ScanPage(p: PageId, snap: Snapshot, commits: CommitLog) returns (rows: seq<Found>)
      ensures rows == PageRows(p, SlotsOf(pages, p), snap, commits)
    {
      var slots := SlotsOf(pages, p);
      rows := [];
      for s := 0 to |slots|
        invariant rows == PageRows(p, slots[..s], snap, commits)
      {
        assert slots[..s + 1][..s] == slots[..s];
        if RowVisible(slots[s], snap, commits) {
          rows := rows + [Found(RecordId(p, s), slots[s].value[HEADER_SIZE..])];
        }
      }
      assert slots[..|slots|] == slots;
    }
  }

  lemma RunningId(log: seq<Rec>, t: TxnId)
    requires Running(log, t)
    ensures t < TWO64
  {
  }

  lemma DirectorySame(log: seq<Rec>, log': seq<Rec>, h: nat)
    requires exists r: Rec :: !r.payload.HeapPage? && log' == log + [r]
    ensures R.HeapPages(log', h) == R.HeapPages(log, h)
  {
    var r: Rec :| !r.payload.HeapPage? && log' == log + [r];
    R.NoteHeaps(log, r);
  }

  lemma ScanMeaning(pages: Disk, log: seq<Rec>, h: nat, snap: Snapshot, commits: CommitLog)
    requires PagesValid(pages, log) && StoreHistory(log)
    ensures var out := ScanRows(R.HeapPages(log, h), pages, snap, commits);
      && (forall i, j :: 0 <= i < j < |out| ==> out[i].rid != out[j].rid)
      && InOrder(R.HeapPages(log, h), out)
      && (forall f :: f in out <==>
            f.rid.page in R.HeapPages(log, h) && RowVisible(Row(log, f.rid), snap, commits)
            && f.payload == Row(log, f.rid).value[HEADER_SIZE..])
  {
    var pids := R.HeapPages(log, h);
    DirectoryDistinct(log, h);
    ScanRowsOnce(pids, pages, snap, commits);
    forall f ensures f in ScanRows(pids, pages, snap, commits) <==>
      f.rid.page in pids && RowVisible(Row(log, f.rid), snap, commits)
        && f.payload == Row(log, f.rid).value[HEADER_SIZE..]
    {
      ScanRowsHave(pids, pages, snap, commits, f);
      RowOnPages(pages, log, f.rid);
    }
  }
}
