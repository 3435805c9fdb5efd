/**
 * Redo: what each WAL record does to a page, the page a log prefix leads to, and the theorem that
 * redo from any crash state, skipping what a page's LSN says it already has, gives that page.
 */
module Redo {
  import opened Bytes
  import opened Options
  import opened Visibility
  import opened RecordHeader
  import SP = SlottedPage

  type PageId = nat
  type Lsn = nat

  datatype Payload =
    | Insert(page: PageId, slot: nat, after: seq<byte>)
    | Update(page: PageId, slot: nat, before: seq<byte>, after: seq<byte>)
    | Delete(page: PageId, slot: nat, before: seq<byte>)
    | FullPageImage(page: PageId, image: seq<byte>)
    | HeapPage(heap: nat, heapPage: PageId)
    | Commit
    | Abort
    | Other

  datatype Rec = Rec(lsn: Lsn, txn: TxnId, payload: Payload)

  /** What a page's bytes mean, apart from its LSN: a slotted heap page, or the raw image of an index node. */
  datatype Body = Heap(page: SP.Page) | Index(bytes: seq<byte>)

  /** A page whose checksum holds. A torn or missing page is the absence of one. */
  datatype Page = Page(lsn: Lsn, body: Body)

  const Fresh: Page := Page(0, Heap(SP.EmptyPage))

  predicate Touches(r: Rec, p: PageId) {
    (r.payload.Insert? || r.payload.Update? || r.payload.Delete? || r.payload.FullPageImage?) && r.payload.page == p
  }

  predicate IsData(r: Rec) {
    r.payload.Insert? || r.payload.Update? || r.payload.Delete? || r.payload.FullPageImage?
  }

  function RedoInsert(page: SP.Page, slot: nat, after: seq<byte>): Result<SP.Page> {
    match SP.PageInsert(page, after)
    case None => Err
    case Some((p, s)) => if s == slot then Ok(p) else Err
  }

  function RedoOverwrite(page: SP.Page, slot: nat, after: seq<byte>): Result<SP.Page> {
    match SP.PageEdit(page, slot, after)
    case None => Err
    case Some(p) => Ok(p)
  }

  function RedoDelete(page: SP.Page, slot: nat, before: seq<byte>, t: TxnId): Result<SP.Page> {
    match SP.PageGet(page, slot)
    case None => Err
    case Some(dst) =>
      if |dst| != |before| || |dst| < 16 then Err else RedoOverwrite(page, slot, StampBytes(before, t))
  }

  /** Redo of one record on the page it touches. A full image brings its own, older, LSN bytes with it. */
  function Apply(page: Page, r: Rec): Result<Page>
    requires IsData(r)
  {
    match r.payload
    case FullPageImage(_, image) =>
      if |image| != SP.PAGE_SIZE then Err else Ok(Page(FromLe(image[..8]), Index(image[8..])))
    case _ =>
      if page.body.Index? then Err
      else
        var done := match r.payload
          case Insert(_, slot, after) => RedoInsert(page.body.page, slot, after)
          case Update(_, slot, _, after) => RedoOverwrite(page.body.page, slot, after)
          case Delete(_, slot, before) => RedoDelete(page.body.page, slot, before, r.txn)
          case _ => Err;
        match done case Err => Err case Ok(b) => Ok(Page(r.lsn, Heap(b)))
  }

  /** Full replay: the page after every record of the log that touches it, from an empty page. */
  function Replay(log: seq<Rec>, p: PageId): Result<Page> {
    if log == [] then Ok(Fresh)
    else
      var before := Replay(log[..|log| - 1], p);
      var r := log[|log| - 1];
      if before.Ok? && Touches(r, p) then Apply(before.value, r) else before
  }

  /** Incremental redo: from `start`, apply only the records with an LSN above `base`. */
  function Resume(start: Page, base: Lsn, log: seq<Rec>, p: PageId): Result<Page> {
    if log == [] then Ok(start)
    else
      var before := Resume(start, base, log[..|log| - 1], p);
      var r := log[|log| - 1];
      if before.Ok? && Touches(r, p) && r.lsn > base then Apply(before.value, r) else before
  }

  // ----- Logs the engine writes, and what a crash leaves on disk -----

  ghost predicate Ascending(log: seq<Rec>) {
    && (forall i :: 0 <= i < |log| ==> log[i].lsn > 0)
    && (forall i, j :: 0 <= i < j < |log| ==> log[i].lsn < log[j].lsn)
  }

  /** The page belongs to the index: its records are full images, logged with zero LSN bytes. */
  ghost predicate IndexPage(log: seq<Rec>, p: PageId) {
    forall i :: 0 <= i < |log| && Touches(log[i], p) ==>
      log[i].payload.FullPageImage? && |log[i].payload.image| == SP.PAGE_SIZE && FromLe(log[i].payload.image[..8]) == 0
  }

  /** The page belongs to a heap: no full images, and every record could be replayed where it was written. */
  ghost predicate HeapPageOk(log: seq<Rec>, p: PageId) {
    && (forall i :: 0 <= i < |log| && Touches(log[i], p) ==> !log[i].payload.FullPageImage?)
    && Replay(log, p).Ok?
  }

  ghost predicate History(log: seq<Rec>) {
    Ascending(log) && forall p :: IndexPage(log, p) || HeapPageOk(log, p)
  }

  /**
   * What a crash may leave of page `p`: the page as it was after some durable prefix of its records.
   * An index page carries the LSN of its image, or zero if an earlier recovery wrote it; later images may
   * have become durable since.
   */
  ghost predicate EarlierVersion(log: seq<Rec>, p: PageId, page: Page) {
    if IndexPage(log, p)
    then exists k :: 0 <= k < |log| && Touches(log[k], p)
                     && page.body == Index(log[k].payload.image[8..])
                     && (page.lsn == log[k].lsn || page.lsn == 0)
    else exists k :: 0 <= k <= |log| && Replay(log[..k], p) == Ok(page)
  }

  predicate IsLast(log: seq<Rec>, p: PageId, k: nat) {
    k < |log| && Touches(log[k], p) && forall i :: k < i < |log| ==> !Touches(log[i], p)
  }

  type Disk = map<PageId, Page>

  ghost predicate CrashState(log: seq<Rec>, disk: Disk) {
    forall p :: p in disk ==> EarlierVersion(log, p, disk[p])
  }

  /** `PageCache::load`: a page that reads with a valid checksum is trusted, any other is rebuilt. */
  function Loaded(disk: Disk, p: PageId): Page {
    if p in disk then disk[p] else Fresh
  }

  function Base(disk: Disk, p: PageId): Lsn {
    if p in disk then disk[p].lsn else 0
  }

  // ----- Heap pages -----

  lemma ReplayAppend(log: seq<Rec>, r: Rec, p: PageId)
    ensures Replay(log + [r], p) ==
      if Replay(log, p).Ok? && Touches(r, p) then Apply(Replay(log, p).value, r) else Replay(log, p)
  {
    assert (log + [r])[..|log|] == log;
  }

  /** A replayed heap page carries the LSN of the last record applied to it. */
  lemma {:induction false} ReplayLsn(log: seq<Rec>, p: PageId)
    requires Ascending(log) && HeapPageOk(log, p)
    ensures forall i :: 0 <= i < |log| && Touches(log[i], p) ==> log[i].lsn <= Replay(log, p).value.lsn
    ensures Replay(log, p).value.lsn == 0
         || exists i :: 0 <= i < |log| && Touches(log[i], p) && log[i].lsn == Replay(log, p).value.lsn
  {
    if log != [] {
      var k := |log| - 1;
      var pre := log[..k];
      assert forall i :: 0 <= i < k ==> pre[i] == log[i];
      ReplayLsn(pre, p);
      if Touches(log[k], p) {
        assert Replay(log, p).value.lsn == log[k].lsn;
      } else if Replay(pre, p).value.lsn != 0 {
        var i :| 0 <= i < |pre| && Touches(pre[i], p) && pre[i].lsn == Replay(pre, p).value.lsn;
        assert log[i] == pre[i];
      }
    }
  }

  /** A prefix of a replayable log is replayable. */
  lemma {:induction false} ReplayPrefixOk(log: seq<Rec>, p: PageId, k: nat)
    requires k <= |log| && Replay(log, p).Ok?
    ensures Replay(log[..k], p).Ok?
  {
    if k == |log| {
      assert log[..k] == log;
    } else {
      var pre := log[..|log| - 1];
      ReplayPrefixOk(pre, p, k);
      assert pre[..k] == log[..k];
    }
  }

  /** Starting from the page after `k` records, skipping by LSN catches up with full replay. */
  lemma {:induction false} ResumeHeap(log: seq<Rec>, p: PageId, k: nat, n: nat)
    requires Ascending(log) && HeapPageOk(log, p) && k <= |log| && n <= |log|
    ensures Replay(log[..k], p).Ok?
    ensures var start := Replay(log[..k], p).value;
      Resume(start, start.lsn, log[..n], p) == if n <= k then Ok(start) else Replay(log[..n], p)
    decreases n
  {
    hide Apply;
    ReplayPrefixOk(log, p, k);
    var start := Replay(log[..k], p).value;
    StartLsn(log, p, k);
    if n > 0 {
      ResumeHeap(log, p, k, n - 1);
      assert log[..n][..n - 1] == log[..n - 1];
      ReplayPrefixOk(log, p, n - 1);
    }
  }

  /** The LSN of a heap page separates the records it has from those it lacks. */
  lemma StartLsn(log: seq<Rec>, p: PageId, k: nat)
    requires Ascending(log) && HeapPageOk(log, p) && k <= |log| && Replay(log[..k], p).Ok?
    ensures forall i :: 0 <= i < |log| && Touches(log[i], p) ==>
      (i < k <==> log[i].lsn <= Replay(log[..k], p).value.lsn)
  {
    hide Apply, Replay;
    PrefixFacts(log, p, k);
    ReplayLsn(log[..k], p);
    forall i | 0 <= i < |log| && Touches(log[i], p)
      ensures i < k <==> log[i].lsn <= Replay(log[..k], p).value.lsn
    {
      if i < k { assert log[..k][i] == log[i]; }
    }
  }

  lemma PrefixFacts(log: seq<Rec>, p: PageId, k: nat)
    requires Ascending(log) && HeapPageOk(log, p) && k <= |log|
    ensures Ascending(log[..k]) && HeapPageOk(log[..k], p)
  {
    ReplayPrefixOk(log, p, k);
  }

  // ----- Index pages -----

  /** Images overwrite everything, so the last one applied decides. */
  lemma {:induction false} ResumeIndex(start: Page, base: Lsn, log: seq<Rec>, p: PageId)
    requires IndexPage(log, p)
    ensures Resume(start, base, log, p).Ok?
    ensures (forall i :: 0 <= i < |log| && Touches(log[i], p) ==> log[i].lsn <= base) ==>
      Resume(start, base, log, p) == Ok(start)
    ensures forall k: nat :: IsLast(log, p, k) && log[k].lsn > base ==>
      Resume(start, base, log, p) == Ok(Page(0, Index(log[k].payload.image[8..])))
  {
    if log != [] {
      var n := |log| - 1;
      var pre := log[..n];
      assert forall i :: 0 <= i < n ==> pre[i] == log[i];
      ResumeIndex(start, base, pre, p);
      forall k: nat | IsLast(log, p, k) && log[k].lsn > base
        ensures Resume(start, base, log, p) == Ok(Page(0, Index(log[k].payload.image[8..])))
      {
        if k < n { assert IsLast(pre, p, k); }
      }
    }
  }

  lemma {:induction false} ReplayIsResume(log: seq<Rec>, p: PageId)
    requires forall i :: 0 <= i < |log| ==> log[i].lsn > 0
    ensures Resume(Fresh, 0, log, p) == Replay(log, p)
  {
    if log != [] {
      ReplayIsResume(log[..|log| - 1], p);
    }
  }

  lemma {:induction false} LastExists(log: seq<Rec>, p: PageId) returns (k: nat)
    requires exists i :: 0 <= i < |log| && Touches(log[i], p)
    ensures IsLast(log, p, k)
  {
    k := |log| - 1;
    if !Touches(log[k], p) {
      var pre := log[..k];
      var i :| 0 <= i < |log| && Touches(log[i], p);
      assert pre[i] == log[i];
      k := LastExists(pre, p);
    }
  }

  // ----- Redo from any crash state -----

  /** Whether two pages agree; of index pages the LSN is not restored, only the content. */
  ghost predicate SamePage(log: seq<Rec>, p: PageId, a: Page, b: Page) {
    if IndexPage(log, p) then a.body == b.body else a == b
  }

  /** An index page that already has the LSN of the newest image holds that image. */
  lemma NewestOnDisk(log: seq<Rec>, p: PageId, page: Page, m: nat)
    requires Ascending(log) && IndexPage(log, p) && EarlierVersion(log, p, page)
    requires IsLast(log, p, m) && log[m].lsn <= page.lsn
    ensures page.body == Index(log[m].payload.image[8..])
    ensures forall i :: 0 <= i < |log| && Touches(log[i], p) ==> log[i].lsn <= page.lsn
  {
    hide Replay, FromLe;
    var k: nat :| k < |log| && Touches(log[k], p)
                  && page.body == Index(log[k].payload.image[8..])
                  && (page.lsn == log[k].lsn || page.lsn == 0);
    assert k == m;
  }

  lemma RedoIndexPage(log: seq<Rec>, disk: Disk, p: PageId)
    requires History(log) && CrashState(log, disk) && IndexPage(log, p)
    requires exists i :: 0 <= i < |log| && Touches(log[i], p)
    ensures var r := Resume(Loaded(disk, p), Base(disk, p), log, p);
      r.Ok? && Replay(log, p).Ok? && r.value.body == Replay(log, p).value.body
      && EarlierVersion(log, p, r.value)
  {
    hide Resume, Replay, FromLe;
    var m := LastExists(log, p);
    ResumeIndex(Loaded(disk, p), Base(disk, p), log, p);
    ResumeIndex(Fresh, 0, log, p);
    ReplayIsResume(log, p);
    assert Replay(log, p).value.body == Index(log[m].payload.image[8..]);
    if p in disk && log[m].lsn <= disk[p].lsn {
      NewestOnDisk(log, p, disk[p], m);
    }
  }

  lemma AllPositive(log: seq<Rec>)
    requires Ascending(log)
    ensures forall i :: 0 <= i < |log| ==> log[i].lsn > 0
  {
  }

  lemma RedoHeapPage(log: seq<Rec>, disk: Disk, p: PageId)
    requires History(log) && CrashState(log, disk) && !IndexPage(log, p)
    ensures Replay(log, p).Ok? && Resume(Loaded(disk, p), Base(disk, p), log, p) == Replay(log, p)
  {
    hide Apply, Replay, Resume, IndexPage, Ascending, HeapPageOk;
    assert HeapPageOk(log, p);
    assert log[..|log|] == log;
    ResumeHeap(log, p, |log|, |log|);
    if p in disk {
      assert EarlierVersion(log, p, disk[p]);
      var k: nat :| k <= |log| && Replay(log[..k], p) == Ok(disk[p]);
      ResumeHeap(log, p, k, |log|);
    } else {
      AllPositive(log);
      ReplayIsResume(log, p);
    }
  }

  /**
   * From every crash state, redo of every page that the log touches succeeds and gives the page that
   * full replay from an empty page gives; what it leaves is again a crash state's page.
   */
  lemma RedoIsReplay(log: seq<Rec>, disk: Disk, p: PageId)
    requires History(log) && CrashState(log, disk)
    requires exists i :: 0 <= i < |log| && Touches(log[i], p)
    ensures var r := Resume(Loaded(disk, p), Base(disk, p), log, p);
      r.Ok? && Replay(log, p).Ok? && SamePage(log, p, r.value, Replay(log, p).value)
      && EarlierVersion(log, p, r.value)
  {
    if IndexPage(log, p) {
      RedoIndexPage(log, disk, p);
    } else {
      RedoHeapPage(log, disk, p);
      assert log[..|log|] == log;
      assert Replay(log[..|log|], p) == Ok(Replay(log, p).value);
    }
  }
}
