/**
 * Crash recovery: one pass over the durable log that redoes pages and rebuilds the commit status and heap
 * directory.
 */
module Recovery {
  import opened Options
  import opened Visibility
  import opened Redo

  ghost predicate Touched(log: seq<Rec>, p: PageId) {
    exists i :: 0 <= i < |log| && Touches(log[i], p)
  }

  /** Whether redo of `p` applies any record: one newer than the page on disk. */
  ghost predicate Stale(disk: Disk, log: seq<Rec>, p: PageId) {
    exists i :: 0 <= i < |log| && Touches(log[i], p) && log[i].lsn > Base(disk, p)
  }

  /** The cached pages and their loaded LSNs, after the records of `log`. */
  ghost predicate CacheOk(disk: Disk, pages: map<PageId, Page>, base: map<PageId, Lsn>, dirtied: set<PageId>,
                          log: seq<Rec>)
  {
    && pages.Keys == base.Keys
    && (forall p :: p in pages <==> Touched(log, p))
    && (forall p :: p in dirtied <==> Stale(disk, log, p))
    && (forall p :: p in pages ==>
          base[p] == Base(disk, p) && Resume(Loaded(disk, p), Base(disk, p), log, p) == Ok(pages[p]))
  }

  function Cached(disk: Disk, pages: map<PageId, Page>, p: PageId): Page {
    if p in pages then pages[p] else Loaded(disk, p)
  }

  ghost predicate RedoErr(disk: Disk, log: seq<Rec>, p: PageId) {
    Resume(Loaded(disk, p), Base(disk, p), log, p).Err?
  }

  /** What redo of a record needs and what it leaves, whichever way it goes. */
  lemma CacheStep(disk: Disk, pages: map<PageId, Page>, base: map<PageId, Lsn>, dirtied: set<PageId>, log: seq<Rec>,
                  r: Rec)
    requires CacheOk(disk, pages, base, dirtied, log) && IsData(r)
    ensures var p := r.payload.page;
      var page, base' := Cached(disk, pages, p), if p in pages then base else base[p := Base(disk, p)];
      && p in base' && base'[p] == Base(disk, p)
      && (r.lsn <= Base(disk, p) ==>
           !RedoErr(disk, log + [r], p) && CacheOk(disk, pages[p := page], base', dirtied, log + [r]))
      && (r.lsn > Base(disk, p) ==>
            match Apply(page, r)
            case Err => RedoErr(disk, log + [r], p)
            case Ok(page') =>
              !RedoErr(disk, log + [r], p)
              && CacheOk(disk, pages[p := page][p := page'], base', dirtied + {p}, log + [r]))
  {
    var p := r.payload.page;
    var page, base' := Cached(disk, pages, p), if p in pages then base else base[p := Base(disk, p)];
    ResumeStep(disk, log, r, p);
    if p !in pages { ResumeUntouched(disk, log, p); }
    hide Apply;
    if r.lsn <= Base(disk, p) {
      CacheNext(disk, pages, base, dirtied, log, r, page, base', dirtied);
    } else if Apply(page, r).Ok? {
      var page' := Apply(page, r).value;
      assert pages[p := page][p := page'] == pages[p := page'];
      CacheNext(disk, pages, base, dirtied, log, r, page', base', dirtied + {p});
    }
  }

  /** The cache after a record, from what the step did to the one page it touches. */
  lemma CacheNext(disk: Disk, pages: map<PageId, Page>, base: map<PageId, Lsn>, dirtied: set<PageId>, log: seq<Rec>,
                  r: Rec, page: Page, base': map<PageId, Lsn>, dirtied': set<PageId>)
    requires CacheOk(disk, pages, base, dirtied, log) && IsData(r)
    requires base' == if r.payload.page in pages then base else base[r.payload.page := Base(disk, r.payload.page)]
    requires dirtied' == if r.lsn > Base(disk, r.payload.page) then dirtied + {r.payload.page} else dirtied
    requires Resume(Loaded(disk, r.payload.page), Base(disk, r.payload.page), log + [r], r.payload.page) == Ok(page)
    ensures CacheOk(disk, pages[r.payload.page := page], base', dirtied', log + [r])
  {
    hide Resume, Touched, Stale, Apply, Base, Loaded;
    var more, pages' := log + [r], pages[r.payload.page := page];
    forall q: PageId
      ensures Touched(more, q) <==> Touched(log, q) || q == r.payload.page
      ensures Stale(disk, more, q) <==> Stale(disk, log, q) || (q == r.payload.page && r.lsn > Base(disk, q))
    {
      TouchedStep(disk, log, r, q);
    }
    forall q | q in pages'
      ensures base'[q] == Base(disk, q) && Resume(Loaded(disk, q), Base(disk, q), more, q) == Ok(pages'[q])
    {
      if q != r.payload.page { ResumeStep(disk, log, r, q); }
    }
  }

  /** The pages being recovered: loaded once, redone in memory, written back only if changed. */
  class PageCache {
    var disk: Disk
    var pages: map<PageId, Page>
    var base: map<PageId, Lsn>
    var dirtied: set<PageId>

    constructor (d: Disk)
      ensures disk == d && Holds([])
    {
      disk := d;
      pages, base, dirtied := map[], map[], {};
    }

    /** What the cache holds after the records of `log`. */
    ghost predicate Holds(log: seq<Rec>)
      reads this
    {
      CacheOk(disk, pages, base, dirtied, log)
    }

    /** Load a page on first use: trusted if it reads with a valid checksum, else an empty heap page. */
    method Load(p: PageId)
      modifies this`pages, this`base
      ensures pages == old(pages)[p := Cached(old(disk), old(pages), p)]
      ensures base == if p in old(pages) then old(base) else old(base)[p := Base(disk, p)]
    {
      if p !in pages {
        var valid := p in disk;
        base := base[p := if valid then disk[p].lsn else 0];
        pages := pages[p := if valid then disk[p] else Fresh];
      } else {
        assert pages[p := pages[p]] == pages;
      }
    }

    /** Redo of one data record. */
    method RedoRecord(ghost log: seq<Rec>, r: Rec) returns (ok: bool, skipped: bool)
      requires Holds(log) && IsData(r)
      modifies this
      ensures disk == old(disk)
      ensures ok ==> Holds(log + [r]) && (skipped <==> r.lsn <= Base(disk, r.payload.page))
      ensures !ok <==> WrongImage(r) || RedoErr(disk, log + [r], r.payload.page)
    {
      hide Apply, CacheOk, RedoErr, Cached;
      skipped := false;
      if r.payload.FullPageImage? && |r.payload.image| != SP.PAGE_SIZE {
        return false, skipped;
      }
      var p := r.payload.page;
      CacheStep(disk, pages, base, dirtied, log, r);
      Load(p);
      if r.lsn <= base[p] {
        skipped := true;
      } else {
        var redone := Apply(pages[p], r);
        if redone.Err? {
          return false, skipped;
        }
        pages := pages[p := redone.value];
        dirtied := dirtied + {p};
      }
      ok := true;
    }

    /** A record without page redo leaves the cache as it is. */
    lemma SkipRecord(log: seq<Rec>, r: Rec)
      requires Holds(log) && !IsData(r)
      ensures Holds(log + [r])
    {
      forall q: PageId
        ensures Touched(log + [r], q) <==> Touched(log, q)
        ensures Stale(disk, log + [r], q) <==> Stale(disk, log, q)
        ensures Resume(Loaded(disk, q), Base(disk, q), log + [r], q) == Resume(Loaded(disk, q), Base(disk, q), log, q)
      {
        TouchedStep(disk, log, r, q);
        ResumeStep(disk, log, r, q);
      }
    }

    /** What writing back the changed pages will leave on disk. */
    lemma Flushed(log: seq<Rec>)
      requires Holds(log)
      ensures dirtied <= pages.Keys && RedoneTo(log, disk, disk + map p | p in dirtied :: pages[p])
    {
      forall p | Stale(disk, log, p) ensures Touched(log, p) {
      }
      hide Stale, Touched, Resume;
    }

    /** Write back every changed page. */
    method FlushDirty()
      requires dirtied <= pages.Keys
      modifies this`disk
      ensures disk == old(disk) + map p | p in dirtied :: pages[p]
    {
      var todo := dirtied;
      while todo != {}
        invariant todo <= dirtied
        invariant disk == old(disk) + map p | p in dirtied - todo :: pages[p]
        decreases todo
      {
        var p :| p in todo;
        disk := disk[p := pages[p]];
        todo := todo - {p};
      }
    }
  }

  lemma ResumeStep(disk: Disk, log: seq<Rec>, r: Rec, p: PageId)
    ensures var was := Resume(Loaded(disk, p), Base(disk, p), log, p);
      Resume(Loaded(disk, p), Base(disk, p), log + [r], p) ==
        if was.Ok? && Touches(r, p) && r.lsn > Base(disk, p) then Apply(was.value, r) else was
  {
    assert (log + [r])[..|log|] == log;
  }

  lemma {:induction false} ResumeUntouched(disk: Disk, log: seq<Rec>, p: PageId)
    requires !Touched(log, p)
    ensures Resume(Loaded(disk, p), Base(disk, p), log, p) == Ok(Loaded(disk, p))
  {
    if log != [] {
      var pre := log[..|log| - 1];
      assert forall i :: 0 <= i < |pre| ==> pre[i] == log[i];
      ResumeUntouched(disk, pre, p);
    }
  }

  lemma TouchedStep(disk: Disk, log: seq<Rec>, r: Rec, p: PageId)
    ensures Touched(log + [r], p) <==> Touched(log, p) || Touches(r, p)
    ensures Stale(disk, log + [r], p) <==> Stale(disk, log, p) || (Touches(r, p) && r.lsn > Base(disk, p))
  {
    var more := log + [r];
    assert more[|log|] == r && forall i :: 0 <= i < |log| ==> more[i] == log[i];
    if i :| 0 <= i < |log| && Touches(log[i], p) { assert Touches(more[i], p); }
    if i :| 0 <= i < |log| && Touches(log[i], p) && log[i].lsn > Base(disk, p) {
      assert Touches(more[i], p) && more[i].lsn > Base(disk, p);
    }
  }

  // ----- Analysis -----

  ghost predicate HasCommit(log: seq<Rec>, t: TxnId) {
    exists i :: 0 <= i < |log| && log[i].payload.Commit? && log[i].txn == t
  }

  ghost predicate HasAbort(log: seq<Rec>, t: TxnId) {
    exists i :: 0 <= i < |log| && log[i].payload.Abort? && log[i].txn == t
  }

  ghost predicate HasData(log: seq<Rec>, t: TxnId) {
    exists i :: 0 <= i < |log| && IsData(log[i]) && log[i].txn == t
  }

  function MaxTxn(log: seq<Rec>): TxnId {
    if log == [] then BOOTSTRAP_TXN
    else var m := MaxTxn(log[..|log| - 1]); if m < log[|log| - 1].txn then log[|log| - 1].txn else m
  }

  /** No record has a larger transaction id, and some record, if there is a user's, has this one. */
  lemma {:induction false} MaxTxnIs(log: seq<Rec>)
    ensures forall i :: 0 <= i < |log| ==> log[i].txn <= MaxTxn(log)
    ensures MaxTxn(log) == BOOTSTRAP_TXN || exists i :: 0 <= i < |log| && log[i].txn == MaxTxn(log)
  {
    if log != [] {
      var k := |log| - 1;
      MaxTxnIs(log[..k]);
      assert forall i :: 0 <= i < k ==> log[..k][i] == log[i];
    }
  }

  /** The pages given to heap `h`, in the order they were allocated. */
  function HeapPages(log: seq<Rec>, h: nat): seq<PageId> {
    if log == [] then []
    else
      var before := HeapPages(log[..|log| - 1], h);
      var r := log[|log| - 1];
      if r.payload.HeapPage? && r.payload.heap == h then before + [r.payload.heapPage] else before
  }

  datatype HeapEntry = HeapEntry(heap: nat, pages: seq<PageId>)

  /** The directory lists exactly the heaps with pages, once each, with their pages in order. */
  ghost predicate DirOk(dir: seq<HeapEntry>, index: map<nat, nat>, log: seq<Rec>) {
    && (forall h :: h in index <==> HeapPages(log, h) != [])
    && (forall h :: h in index ==> index[h] < |dir| && dir[index[h]] == HeapEntry(h, HeapPages(log, h)))
    && (forall k :: 0 <= k < |dir| ==> dir[k].heap in index && index[dir[k].heap] == k)
  }

  ghost predicate TxnsOk(committed: set<TxnId>, aborted: set<TxnId>, dataTxns: set<TxnId>, maxTxn: TxnId, log: seq<Rec>)
  {
    && (forall t :: t in committed <==> HasCommit(log, t))
    && (forall t :: t in aborted <==> HasAbort(log, t))
    && (forall t :: t in dataTxns <==> HasData(log, t))
    && maxTxn == MaxTxn(log)
  }

  lemma TxnsStep(committed: set<TxnId>, aborted: set<TxnId>, dataTxns: set<TxnId>, maxTxn: TxnId, log: seq<Rec>, r: Rec)
    requires TxnsOk(committed, aborted, dataTxns, maxTxn, log)
    ensures TxnsOk(if r.payload.Commit? then committed + {r.txn} else committed,
                   if r.payload.Abort? then aborted + {r.txn} else aborted,
                   if IsData(r) then dataTxns + {r.txn} else dataTxns,
                   if maxTxn < r.txn then r.txn else maxTxn,
                   log + [r])
  {
    NoteTxns(log, r);
    hide HasCommit, HasAbort, HasData, MaxTxn;
  }

  lemma ReportParts(committed: set<TxnId>, aborted: set<TxnId>, dataTxns: set<TxnId>, maxTxn: TxnId, log: seq<Rec>)
    requires TxnsOk(committed, aborted, dataTxns, maxTxn, log)
    ensures maxTxn == MaxTxn(log)
    ensures forall t :: t in committed <==> HasCommit(log, t)
    ensures forall t :: t in aborted || (t in dataTxns && t !in committed) <==>
      HasAbort(log, t) || (HasData(log, t) && !HasCommit(log, t))
  {
  }

  class Analysis {
    var committed: set<TxnId>
    var aborted: set<TxnId>
    var dataTxns: set<TxnId>
    var heapDir: seq<HeapEntry>
    var heapIndex: map<nat, nat>
    var maxTxn: TxnId

    ghost predicate Describes(log: seq<Rec>)
      reads this
    {
      TxnsOk(committed, aborted, dataTxns, maxTxn, log) && DirOk(heapDir, heapIndex, log)
    }

    constructor ()
      ensures Describes([])
    {
      committed, aborted, dataTxns := {}, {}, {};
      heapDir, heapIndex := [], map[];
      maxTxn := BOOTSTRAP_TXN;
    }

    method AddHeapPage(ghost log: seq<Rec>, r: Rec)
      requires r.payload.HeapPage? && DirOk(heapDir, heapIndex, log)
      modifies this`heapDir, this`heapIndex
      ensures DirOk(heapDir, heapIndex, log + [r])
    {
      var h, p := r.payload.heap, r.payload.heapPage;
      NoteHeaps(log, r);
      hide HeapPages;
      if h !in heapIndex {
        heapDir := heapDir + [HeapEntry(h, [])];
        heapIndex := heapIndex[h := |heapDir| - 1];
      }
      var i := heapIndex[h];
      heapDir := heapDir[i := heapDir[i].(pages := heapDir[i].pages + [p])];
    }

    /** Take one record into account. */
    method Note(ghost log: seq<Rec>, r: Rec)
      requires Describes(log)
      modifies this
      ensures Describes(log + [r])
    {
      TxnsStep(committed, aborted, dataTxns, maxTxn, log, r);
      DirKept(heapDir, heapIndex, log, r);
      hide DirOk, TxnsOk;
      maxTxn := if maxTxn < r.txn then r.txn else maxTxn;
      match r.payload {
        case HeapPage(_, _) => AddHeapPage(log, r);
        case Commit => committed := committed + {r.txn};
        case Abort => aborted := aborted + {r.txn};
        case Other =>
        case _ => dataTxns := dataTxns + {r.txn};
      }
    }
  }

  lemma NoteTxns(log: seq<Rec>, r: Rec)
    ensures forall t :: HasCommit(log + [r], t) <==> HasCommit(log, t) || (r.payload.Commit? && r.txn == t)
    ensures forall t :: HasAbort(log + [r], t) <==> HasAbort(log, t) || (r.payload.Abort? && r.txn == t)
    ensures forall t :: HasData(log + [r], t) <==> HasData(log, t) || (IsData(r) && r.txn == t)
    ensures MaxTxn(log + [r]) == if MaxTxn(log) < r.txn then r.txn else MaxTxn(log)
  {
    var more := log + [r];
    assert more[..|log|] == log;
    assert more[|log|] == r && forall i :: 0 <= i < |log| ==> more[i] == log[i];
    forall t
      ensures HasCommit(more, t) <==> HasCommit(log, t) || (r.payload.Commit? && r.txn == t)
      ensures HasAbort(more, t) <==> HasAbort(log, t) || (r.payload.Abort? && r.txn == t)
      ensures HasData(more, t) <==> HasData(log, t) || (IsData(r) && r.txn == t)
    {
      if HasCommit(log, t) {
        var i :| 0 <= i < |log| && log[i].payload.Commit? && log[i].txn == t;
        assert more[i].payload.Commit? && more[i].txn == t;
      }
      if HasAbort(log, t) {
        var i :| 0 <= i < |log| && log[i].payload.Abort? && log[i].txn == t;
        assert more[i].payload.Abort? && more[i].txn == t;
      }
      if HasData(log, t) {
        var i :| 0 <= i < |log| && IsData(log[i]) && log[i].txn == t;
        assert IsData(more[i]) && more[i].txn == t;
      }
    }
  }

  lemma NoteHeaps(log: seq<Rec>, r: Rec)
    ensures forall h ::
      HeapPages(log + [r], h) ==
        if r.payload.HeapPage? && r.payload.heap == h then HeapPages(log, h) + [r.payload.heapPage]
          else HeapPages(log, h)
  {
    assert (log + [r])[..|log|] == log;
  }

  lemma DirKept(dir: seq<HeapEntry>, index: map<nat, nat>, log: seq<Rec>, r: Rec)
    requires DirOk(dir, index, log)
    ensures !r.payload.HeapPage? ==> DirOk(dir, index, log + [r])
  {
    NoteHeaps(log, r);
    hide HeapPages;
  }

  // ----- The pass -----

  datatype Report = Report(nextTxn: TxnId, committed: set<TxnId>, aborted: set<TxnId>, heaps: seq<HeapEntry>)

  /** What the log says each transaction came to; losers count as aborted. */
  ghost predicate ReportOk(log: seq<Rec>, report: Report) {
    && report.nextTxn == MaxTxn(log) + 1
    && (forall t :: t in report.committed <==> HasCommit(log, t))
    && (forall t :: t in report.aborted <==> HasAbort(log, t) || (HasData(log, t) && !HasCommit(log, t)))
    && (exists index :: DirOk(report.heaps, index, log))
  }

  ghost predicate WrongImage(r: Rec) {
    r.payload.FullPageImage? && |r.payload.image| != SP.PAGE_SIZE
  }

  /** Redo fails on an image of the wrong size or a record that does not replay. */
  ghost predicate RedoFails(log: seq<Rec>, disk: Disk) {
    || (exists i :: 0 <= i < |log| && WrongImage(log[i]))
    || (exists i, p :: 0 <= i <= |log| && Resume(Loaded(disk, p), Base(disk, p), log[..i], p).Err?)
  }

  /** The single loop over the durable log. */
  method Pass(log: seq<Rec>, cache: PageCache, analysis: Analysis) returns (ok: bool)
    requires cache.Holds([]) && analysis.Describes([])
    modifies cache, analysis
    ensures cache.disk == old(cache.disk)
    ensures ok ==> cache.Holds(log) && analysis.Describes(log)
    ensures !ok <==> RedoFails(log, cache.disk)
  {
    hide Resume, CacheOk, RedoErr, RedoFails, WrongImage, HasCommit, HasAbort, HasData, MaxTxn, DirOk;
    ok := true;
    assert log[..0] == [];
    for i := 0 to |log|
      invariant cache.Holds(log[..i]) && analysis.Describes(log[..i]) && cache.disk == old(cache.disk)
      invariant forall j :: 0 <= j < i ==> !WrongImage(log[j])
    {
      assert log[..i + 1] == log[..i] + [log[i]];
      StopsHere(log, cache.disk, i);
      analysis.Note(log[..i], log[i]);
      if IsData(log[i]) {
        var skipped;
        ok, skipped := cache.RedoRecord(log[..i], log[i]);
        if !ok {
          return;
        }
      } else {
        cache.SkipRecord(log[..i], log[i]);
      }
    }
    assert log[..|log|] == log;
    CachedNeverFailed(cache.disk, cache.pages, cache.base, cache.dirtied, log);
  }

  lemma StopsHere(log: seq<Rec>, disk: Disk, i: nat)
    requires i < |log|
    ensures IsData(log[i]) && (WrongImage(log[i]) || RedoErr(disk, log[..i] + [log[i]], log[i].payload.page)) ==>
      RedoFails(log, disk)
    ensures WrongImage(log[i]) ==> IsData(log[i])
  {
    hide Resume;
    assert log[..i + 1] == log[..i] + [log[i]];
  }

  /** A pass that reached the end had nothing to fail on. */
  lemma CachedNeverFailed(disk: Disk, pages: map<PageId, Page>, base: map<PageId, Lsn>, dirtied: set<PageId>,
                          log: seq<Rec>)
    requires CacheOk(disk, pages, base, dirtied, log) && forall i :: 0 <= i < |log| ==> !WrongImage(log[i])
    ensures !RedoFails(log, disk)
  {
    hide Resume, Touched, Stale;
    forall i, p | 0 <= i <= |log| ensures Resume(Loaded(disk, p), Base(disk, p), log[..i], p).Ok? {
      if p !in pages { ResumeUntouched(disk, log, p); }
      ResumePrefixOk(Loaded(disk, p), Base(disk, p), log, p, i);
    }
  }

  /** Stale pages are redone from what was on disk, and all others left alone. */
  ghost predicate RedoneTo(log: seq<Rec>, disk: Disk, disk': Disk) {
    && (forall p :: p in disk' <==> p in disk || Stale(disk, log, p))
    && (forall p :: p in disk' ==>
          if Stale(disk, log, p) then Resume(Loaded(disk, p), Base(disk, p), log, p) == Ok(disk'[p])
          else disk'[p] == disk[p])
  }

  method Recover(log: seq<Rec>, disk: Disk) returns (report: Option<Report>, disk': Disk)
    ensures report.None? <==> RedoFails(log, disk)
    ensures report.None? ==> disk' == disk
    ensures report.Some? ==> ReportOk(log, report.value)
    ensures report.Some? ==> RedoneTo(log, disk, disk')
  {
    hide Resume, HasCommit, HasAbort, HasData, MaxTxn, DirOk;
    var cache := new PageCache(disk);
    var analysis := new Analysis();
    var ok := Pass(log, cache, analysis);
    if !ok {
      return None, disk;
    }
    cache.Flushed(log);
    ReportParts(analysis.committed, analysis.aborted, analysis.dataTxns, analysis.maxTxn, log);
    hide RedoneTo, TxnsOk, Stale, Touched;
    cache.FlushDirty();
    var losers := set t | t in analysis.dataTxns && t !in analysis.committed && t !in analysis.aborted;
    report := Some(Report(analysis.maxTxn + 1, analysis.committed, analysis.aborted + losers, analysis.heapDir));
    disk' := cache.disk;
    assert DirOk(report.value.heaps, analysis.heapIndex, log);
  }

  // ----- What recovery achieves -----

  lemma {:induction false} ResumePrefixOk(start: Page, base: Lsn, log: seq<Rec>, p: PageId, k: nat)
    requires k <= |log| && Resume(start, base, log, p).Ok?
    ensures Resume(start, base, log[..k], p).Ok?
  {
    if k == |log| {
      assert log[..k] == log;
    } else {
      var pre := log[..|log| - 1];
      ResumePrefixOk(start, base, pre, p, k);
      assert pre[..k] == log[..k];
    }
  }

  lemma {:induction false} ResumeCurrent(disk: Disk, log: seq<Rec>, p: PageId)
    requires !Stale(disk, log, p)
    ensures Resume(Loaded(disk, p), Base(disk, p), log, p) == Ok(Loaded(disk, p))
  {
    if log != [] {
      var pre := log[..|log| - 1];
      assert forall i :: 0 <= i < |pre| ==> pre[i] == log[i];
      ResumeCurrent(disk, pre, p);
    }
  }

  lemma NoRedoError(log: seq<Rec>, disk: Disk)
    requires History(log) && CrashState(log, disk)
    ensures !RedoFails(log, disk)
  {
    hide Resume, Replay, EarlierVersion, HeapPageOk;
    forall i, p | 0 <= i <= |log| ensures Resume(Loaded(disk, p), Base(disk, p), log[..i], p).Ok? {
      if Touched(log, p) {
        RedoIsReplay(log, disk, p);
      } else {
        ResumeUntouched(disk, log, p);
      }
      ResumePrefixOk(Loaded(disk, p), Base(disk, p), log, p, i);
    }
    forall i | 0 <= i < |log| ensures !WrongImage(log[i]) {
      if log[i].payload.FullPageImage? { ImagesOk(log, i); }
    }
  }

  lemma ImagesOk(log: seq<Rec>, i: nat)
    requires History(log) && i < |log| && log[i].payload.FullPageImage?
    ensures |log[i].payload.image| == SP.PAGE_SIZE
  {
    var p := log[i].payload.page;
    assert Touches(log[i], p);
    assert IndexPage(log, p) || HeapPageOk(log, p);
  }

  lemma RecoveredPage(log: seq<Rec>, disk: Disk, disk': Disk, p: PageId)
    requires History(log) && CrashState(log, disk) && RedoneTo(log, disk, disk') && Touched(log, p)
    ensures p in disk' && Replay(log, p).Ok? && SamePage(log, p, disk'[p], Replay(log, p).value)
    ensures EarlierVersion(log, p, disk'[p])
  {
    hide Resume, Replay, EarlierVersion, SamePage;
    RedoIsReplay(log, disk, p);
    if !Stale(disk, log, p) {
      ResumeCurrent(disk, log, p);
      var i :| 0 <= i < |log| && Touches(log[i], p);
      assert log[i].lsn > 0;
    }
  }

  /**
   * For every log the engine writes and every crash state, recovery raises no error and leaves every
   * page the log touches as full replay from empty pages would; the disk is again a crash state.
   */
  lemma RecoveryRestoresPages(log: seq<Rec>, disk: Disk, disk': Disk)
    requires History(log) && CrashState(log, disk) && RedoneTo(log, disk, disk')
    ensures !RedoFails(log, disk)
    ensures forall p :: Touched(log, p) ==>
      p in disk' && Replay(log, p).Ok? && SamePage(log, p, disk'[p], Replay(log, p).value)
    ensures CrashState(log, disk')
  {
    hide Resume, Replay, EarlierVersion, SamePage, RedoFails, Stale, Touched;
    NoRedoError(log, disk);
    forall p | Touched(log, p)
      ensures p in disk' && Replay(log, p).Ok? && SamePage(log, p, disk'[p], Replay(log, p).value)
    {
      RecoveredPage(log, disk, disk', p);
    }
    forall p | p in disk' ensures EarlierVersion(log, p, disk'[p]) {
      if Touched(log, p) {
        RecoveredPage(log, disk, disk', p);
      } else {
        UntouchedNotStale(log, disk, p);
      }
    }
  }

  lemma UntouchedNotStale(log: seq<Rec>, disk: Disk, p: PageId)
    requires !Touched(log, p)
    ensures !Stale(disk, log, p)
  {
  }

  /** A disk on which any of the recovered pages were written back, and any pages were torn. */
  ghost predicate PartlyWritten(disk: Disk, disk': Disk, part: Disk) {
    forall p :: p in part ==> (p in disk && part[p] == disk[p]) || (p in disk' && part[p] == disk'[p])
  }

  /**
   * Recovery is idempotent and restartable: stopped with any subset of its pages written back, or
   * run to the end, running it again succeeds and gives the same pages.
   */
  lemma RecoveryRestarts(log: seq<Rec>, disk: Disk, disk': Disk, part: Disk, disk'': Disk)
    requires History(log) && CrashState(log, disk) && RedoneTo(log, disk, disk')
    requires PartlyWritten(disk, disk', part) && RedoneTo(log, part, disk'')
    ensures !RedoFails(log, part)
    ensures forall p :: Touched(log, p) ==> p in disk'' && p in disk' && SamePage(log, p, disk''[p], disk'[p])
  {
    hide Resume, Replay, EarlierVersion, RedoFails, Stale, Touched, IndexPage, History;
    RecoveryRestoresPages(log, disk, disk');
    assert CrashState(log, part);
    RecoveryRestoresPages(log, part, disk'');
  }
}
