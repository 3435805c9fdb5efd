/**
 * The buffer pool: a transparent, write-back page cache. Whatever the pool does on its own (pinning,
 * eviction, reload, flushing) leaves the logical contents of every page as they were; only a writer changes them.
 */
module BufferPool {
  import opened Bytes
  import opened Options

  type PageId = nat
  type Lsn = nat

  const MAX_USAGE: nat := 3

  /** A page's bytes: the LSN in its first eight bytes, and the rest. */
  datatype Content = Content(lsn: Lsn, body: seq<int>)

  const Zeros: Content := Content(0, [])

  /** `readers` and `writing` are the content latch. */
  datatype Frame = Frame(content: Content, page: Option<PageId>, pins: nat, usage: nat, dirty: bool, pageLsn: Lsn,
                         readers: nat, writing: bool)

  const EmptyFrame: Frame := Frame(Zeros, None, 0, 0, false, 0, 0, false)

  type Disk = map<PageId, Content>

  // ----- The invariant -----

  /** A page is in at most one frame, and the table says which. */
  ghost predicate TableOk(frames: seq<Frame>, table: map<PageId, nat>) {
    && (forall p :: p in table ==> table[p] < |frames| && frames[table[p]].page == Some(p))
    && (forall i :: 0 <= i < |frames| && frames[i].page.Some? ==>
         frames[i].page.value in table && table[frames[i].page.value] == i)
  }

  /** Latches are held only by those who pin, a writer alone; an unmodified frame agrees with the disk. */
  ghost predicate FrameOk(f: Frame, disk: Disk, last: Lsn) {
    && f.usage <= MAX_USAGE && (f.page.Some? ==> f.content.lsn <= f.pageLsn <= last)
    && f.readers + (if f.writing then 1 else 0) <= f.pins && (f.writing ==> f.readers == 0)
    && (f.page.None? ==> f.pins == 0 && !f.dirty)
    && (f.page.Some? ==> f.page.value in disk && (!f.dirty && !f.writing ==> f.content == disk[f.page.value]))
  }

  ghost predicate FramesOk(frames: seq<Frame>, disk: Disk, last: Lsn) {
    forall i :: 0 <= i < |frames| ==> FrameOk(frames[i], disk, last)
  }

  ghost predicate DirtyOk(frames: seq<Frame>, table: map<PageId, nat>, dirty: set<PageId>) {
    && (forall p :: p in dirty ==> p in table && table[p] < |frames|)
    && (forall p :: p in table && table[p] < |frames| ==> (p in dirty <==> frames[table[p]].dirty))
  }

  /** WAL before data: nothing on disk carries an LSN the log is not durable through. */
  ghost predicate Logged(disk: Disk, durable: Lsn) {
    forall p :: p in disk ==> disk[p].lsn <= durable
  }

  /** What a page holds, wherever it is. */
  ghost function ContentOf(frames: seq<Frame>, table: map<PageId, nat>, disk: Disk, p: PageId): Content
    requires p in disk
  {
    if p in table && table[p] < |frames| then frames[table[p]].content else disk[p]
  }

  ghost function Contents(frames: seq<Frame>, table: map<PageId, nat>, disk: Disk): map<PageId, Content> {
    map p | p in disk :: ContentOf(frames, table, disk, p)
  }

  predicate AllPinned(frames: seq<Frame>) {
    forall i :: 0 <= i < |frames| ==> frames[i].pins > 0
  }

  /** Frames that differ only in their usage counts, and not at all where pinned. */
  ghost predicate SameButUsage(a: seq<Frame>, b: seq<Frame>) {
    |a| == |b| && forall i :: 0 <= i < |a| ==> b[i] == a[i].(usage := b[i].usage) && (a[i].pins > 0 ==> b[i] == a[i])
  }

  ghost predicate PoolOk(frames: seq<Frame>, table: map<PageId, nat>, dirty: set<PageId>, disk: Disk, durable: Lsn,
                         last: Lsn)
  {
    TableOk(frames, table) && FramesOk(frames, disk, last) && DirtyOk(frames, table, dirty) && Logged(disk, durable)
      && durable <= last
  }

  lemma FrameFacts(frames: seq<Frame>, table: map<PageId, nat>, dirty: set<PageId>, disk: Disk, durable: Lsn, last: Lsn,
                   i: nat)
    requires PoolOk(frames, table, dirty, disk, durable, last) && i < |frames|
    ensures FrameOk(frames[i], disk, last)
  {
  }

  lemma UsageKeeps(frames: seq<Frame>, frames': seq<Frame>, table: map<PageId, nat>, dirty: set<PageId>, disk: Disk,
                   durable: Lsn, last: Lsn)
    requires SameButUsage(frames, frames') && forall i :: 0 <= i < |frames'| ==> frames'[i].usage <= MAX_USAGE
    requires PoolOk(frames, table, dirty, disk, durable, last)
    ensures PoolOk(frames', table, dirty, disk, durable, last)
    ensures Contents(frames', table, disk) == Contents(frames, table, disk)
  {
    forall i | 0 <= i < |frames'| ensures FrameOk(frames'[i], disk, last) {
      assert FrameOk(frames[i], disk, last);
    }
  }

  // ----- Eviction -----

  function TableLess(table: map<PageId, nat>, f: Frame): map<PageId, nat> {
    if f.page.Some? then table - {f.page.value} else table
  }

  function DirtyLess(dirty: set<PageId>, f: Frame): set<PageId> {
    if f.page.Some? then dirty - {f.page.value} else dirty
  }

  /** The disk once a frame is written back. */
  function WrittenBack(disk: Disk, f: Frame): Disk {
    if f.dirty && f.page.Some? then disk[f.page.value := f.content] else disk
  }

  /** How far the log is durable after `flush_through`: a flush takes in all that has been appended. */
  function Flushed(durable: Lsn, last: Lsn, upTo: Lsn): Lsn {
    if durable < upTo then last else durable
  }

  /** The log is flushed through the page's LSN before the page is written. */
  function FlushedFor(durable: Lsn, last: Lsn, f: Frame): Lsn {
    if f.dirty && f.page.Some? then Flushed(durable, last, f.pageLsn) else durable
  }

  function Emptied(f: Frame): Frame { f.(page := None, dirty := false, usage := 0, pageLsn := 0) }

  lemma EvictTable(frames: seq<Frame>, table: map<PageId, nat>, dirty: set<PageId>, i: nat)
    requires i < |frames| && TableOk(frames, table) && DirtyOk(frames, table, dirty)
    ensures TableOk(frames[i := Emptied(frames[i])], TableLess(table, frames[i]))
    ensures DirtyOk(frames[i := Emptied(frames[i])], TableLess(table, frames[i]), DirtyLess(dirty, frames[i]))
  {
  }

  lemma EvictFrames(frames: seq<Frame>, table: map<PageId, nat>, disk: Disk, durable: Lsn, last: Lsn, i: nat)
    requires i < |frames| && frames[i].pins == 0 && TableOk(frames, table) && FramesOk(frames, disk, last)
      && Logged(disk, durable)
    requires durable <= last
    ensures var f := frames[i];
      && FramesOk(frames[i := Emptied(f)], WrittenBack(disk, f), last)
      && Logged(WrittenBack(disk, f), FlushedFor(durable, last, f))
      && FlushedFor(durable, last, f) <= last && WrittenBack(disk, f).Keys == disk.Keys
  {
    var f := frames[i];
    assert FrameOk(f, disk, last);
    var frames' := frames[i := Emptied(f)];
    forall j | 0 <= j < |frames'| ensures FrameOk(frames'[j], WrittenBack(disk, f), last) {
      assert FrameOk(frames[j], disk, last);
    }
  }

  lemma EvictKeeps(frames: seq<Frame>, table: map<PageId, nat>, dirty: set<PageId>, disk: Disk, durable: Lsn, last: Lsn,
                   i: nat)
    requires i < |frames| && frames[i].pins == 0 && PoolOk(frames, table, dirty, disk, durable, last)
    ensures var f := frames[i];
      var frames', table', disk' := frames[i := Emptied(f)], TableLess(table, f), WrittenBack(disk, f);
      && PoolOk(frames', table', DirtyLess(dirty, f), disk', FlushedFor(durable, last, f), last)
      && Contents(frames', table', disk') == Contents(frames, table, disk) && disk'.Keys == disk.Keys
  {
    var f := frames[i];
    EvictTable(frames, table, dirty, i);
    EvictFrames(frames, table, disk, durable, last, i);
    assert FrameOk(f, disk, last);
    var frames', table', disk' := frames[i := Emptied(f)], TableLess(table, f), WrittenBack(disk, f);
    hide FramesOk, Logged, DirtyOk;
    forall p | p in disk ensures ContentOf(frames', table', disk', p) == ContentOf(frames, table, disk, p) {
    }
    assert Contents(frames', table', disk') == Contents(frames, table, disk);
  }

  /** The frame a page is seated in, freshly read from disk. */
  function Seated(f: Frame, p: PageId, content: Content): Frame {
    f.(content := content, page := Some(p), pins := 1, usage := 1, dirty := false, pageLsn := content.lsn)
  }

  lemma SeatKeeps(frames: seq<Frame>, table: map<PageId, nat>, dirty: set<PageId>, disk: Disk, durable: Lsn, last: Lsn,
                  i: nat, p: PageId)
    requires i < |frames| && frames[i].page.None? && p in disk && p !in table
      && PoolOk(frames, table, dirty, disk, durable, last)
    ensures var frames' := frames[i := Seated(frames[i], p, disk[p])];
      && PoolOk(frames', table[p := i], dirty, disk, durable, last)
      && Contents(frames', table[p := i], disk) == Contents(frames, table, disk)
  {
    var frames' := frames[i := Seated(frames[i], p, disk[p])];
    assert FrameOk(frames[i], disk, last);
    forall j | 0 <= j < |frames'| ensures FrameOk(frames'[j], disk, last) {
      assert FrameOk(frames[j], disk, last);
    }
  }

  /** A change to one frame that keeps its page and its dirty flag. */
  lemma TouchKeeps(frames: seq<Frame>, table: map<PageId, nat>, dirty: set<PageId>, disk: Disk, durable: Lsn, last: Lsn,
                   i: nat, f: Frame)
    requires i < |frames| && f.page == frames[i].page && f.dirty == frames[i].dirty && FrameOk(f, disk, last)
    requires PoolOk(frames, table, dirty, disk, durable, last)
    ensures PoolOk(frames[i := f], table, dirty, disk, durable, last)
    ensures Contents(frames[i := f], table, disk) ==
      if f.page.Some? then Contents(frames, table, disk)[f.page.value := f.content] else Contents(frames, table, disk)
  {
    assert FrameOk(frames[i], disk, last);
  }

  /** A frame pinned once more, its usage count saturating. */
  function Hit(f: Frame): Frame {
    f.(pins := f.pins + 1, usage := if f.usage + 1 < MAX_USAGE then f.usage + 1 else MAX_USAGE)
  }

  // ----- Marking dirty and flushing -----

  lemma MarkKeeps(frames: seq<Frame>, table: map<PageId, nat>, dirty: set<PageId>, disk: Disk, durable: Lsn, last: Lsn,
                  i: nat, f: Frame)
    requires i < |frames| && frames[i].page.Some? && f == frames[i].(dirty := true, writing := false, pins := f.pins)
      && FrameOk(f, disk, last)
    requires PoolOk(frames, table, dirty, disk, durable, last)
    ensures PoolOk(frames[i := f], table, dirty + {f.page.value}, disk, durable, last)
    ensures Contents(frames[i := f], table, disk) == Contents(frames, table, disk)
  {
    assert FrameOk(frames[i], disk, last);
  }

  /** With nothing dirty and nobody writing, the disk is the logical contents. */
  lemma AllOnDisk(frames: seq<Frame>, table: map<PageId, nat>, disk: Disk, durable: Lsn, last: Lsn)
    requires PoolOk(frames, table, {}, disk, durable, last) && forall i :: 0 <= i < |frames| ==> !frames[i].writing
    ensures Contents(frames, table, disk) == disk
  {
    forall p | p in disk ensures ContentOf(frames, table, disk, p) == disk[p] {
      if p in table {
        assert FrameOk(frames[table[p]], disk, last);
      }
    }
  }

  // ----- The clock sweep -----

  /** Whether the hand, having moved `turn` steps from `h0` in this round, has passed frame `j`. */
  predicate Visited(h0: nat, turn: nat, n: nat, j: nat) {
    (h0 <= j < h0 + turn) || (h0 <= j + n < h0 + turn)
  }

  function HandAt(h0: nat, turn: nat, n: nat): nat
    requires h0 < n && turn < n
  {
    if h0 + turn < n then h0 + turn else h0 + turn - n
  }

  /** After `round` rounds and `turn` steps, each unpinned frame has lost one use per visit. */
  ghost predicate Swept(was: seq<Frame>, frames: seq<Frame>, h0: nat, round: nat, turn: nat) {
    && SameButUsage(was, frames)
    && forall j :: 0 <= j < |was| && was[j].pins == 0 ==>
         frames[j].usage + round + (if Visited(h0, turn, |was|, j) then 1 else 0) == was[j].usage
  }

  lemma SweepStart(frames: seq<Frame>, h0: nat)
    ensures Swept(frames, frames, h0, 0, 0)
  {
  }

  lemma NextTurn(h0: nat, turn: nat, n: nat)
    requires h0 < n && turn < n
    ensures var i := HandAt(h0, turn, n);
      && (i + 1) % n == HandAt(h0, if turn + 1 == n then 0 else turn + 1, n) && !Visited(h0, turn, n, i)
      && (forall j :: 0 <= j < n ==> (Visited(h0, turn + 1, n, j) <==> Visited(h0, turn, n, j) || j == i))
    ensures turn + 1 == n ==> forall j :: 0 <= j < n ==> Visited(h0, n, n, j) && !Visited(h0, 0, n, j)
  {
  }

  function Visits(round: nat, turn: nat, n: nat): nat { round * n + turn }

  lemma HandStep(h0: nat, round: nat, turn: nat, n: nat)
    requires h0 < n && turn < n
    ensures HandAt(h0, turn, n) < n
    ensures (HandAt(h0, turn, n) + 1) % n == HandAt(h0, if turn + 1 == n then 0 else turn + 1, n)
    ensures Visits(if turn + 1 == n then round + 1 else round, if turn + 1 == n then 0 else turn + 1, n)
      == Visits(round, turn, n) + 1
  {
    NextTurn(h0, turn, n);
    assert (round + 1) * n == round * n + n;
  }

  lemma SweepStep(was: seq<Frame>, frames: seq<Frame>, frames': seq<Frame>, h0: nat, round: nat, turn: nat)
    requires Swept(was, frames, h0, round, turn) && h0 < |was| && turn < |was|
    requires var f := frames[HandAt(h0, turn, |was|)];
      if f.pins > 0 then frames' == frames
        else f.usage > 0 && frames' == frames[HandAt(h0, turn, |was|) := f.(usage := f.usage - 1)]
    ensures Swept(was, frames', h0, if turn + 1 == |was| then round + 1 else round,
      if turn + 1 == |was| then 0 else turn + 1)
  {
    NextTurn(h0, turn, |was|);
    hide Visited;
  }

  /** Four rounds use up every count of at most 3. */
  lemma SweepDone(was: seq<Frame>, frames: seq<Frame>, h0: nat, round: nat, turn: nat)
    requires Swept(was, frames, h0, round, turn) && turn < |was| && Visits(round, turn, |was|) == 4 * |was|
    requires forall j :: 0 <= j < |was| ==> was[j].usage <= MAX_USAGE
    ensures AllPinned(was)
  {
    FourRounds(round, |was|, turn);
  }

  lemma FourRounds(round: nat, n: nat, turn: nat)
    requires turn < n && round * n + turn == 4 * n
    ensures round == 4 && turn == 0
  {
    assert n * (round - 4) == -turn;
    MulGrows(n, round - 4);
  }

  lemma SweptUsage(was: seq<Frame>, frames: seq<Frame>, h0: nat, round: nat, turn: nat)
    requires Swept(was, frames, h0, round, turn) && forall j :: 0 <= j < |was| ==> was[j].usage <= MAX_USAGE
    ensures SameButUsage(was, frames) && forall j :: 0 <= j < |frames| ==> frames[j].usage <= MAX_USAGE
  {
    forall j | 0 <= j < |frames| ensures frames[j].usage <= MAX_USAGE {
      assert was[j].pins > 0 ==> frames[j] == was[j];
    }
  }

  lemma UsageBound(frames: seq<Frame>, table: map<PageId, nat>, dirty: set<PageId>, disk: Disk, durable: Lsn, last: Lsn)
    requires PoolOk(frames, table, dirty, disk, durable, last)
    ensures forall j :: 0 <= j < |frames| ==> frames[j].usage <= MAX_USAGE
  {
    forall j | 0 <= j < |frames| ensures frames[j].usage <= MAX_USAGE {
      assert FrameOk(frames[j], disk, last);
    }
  }

  ghost predicate Under(pages: set<PageId>, n: nat) {
    forall p :: p in pages ==> p < n
  }

  class BufferPool {
    var frames: seq<Frame>
    var table: map<PageId, nat>
    var dirty: set<PageId>
    var hand: nat
    var disk: Disk
    var nextPage: PageId
    var durable: Lsn
    var last: Lsn

    ghost predicate Valid()
      reads this
    {
      hand < |frames| && PoolOk(frames, table, dirty, disk, durable, last) && Under(disk.Keys, nextPage)
    }

    /** What a fetch of each page returns. */
    ghost function Logical(): map<PageId, Content>
      reads this
    {
      Contents(frames, table, disk)
    }

    constructor (frameCount: nat, heap: Disk, pages: nat, logged: Lsn)
      requires Logged(heap, logged) && Under(heap.Keys, pages)
      ensures Valid() && Logical() == heap && |frames| == if frameCount == 0 then 1 else frameCount
      ensures (forall i :: 0 <= i < |frames| ==> frames[i] == EmptyFrame) && dirty == {}
      ensures disk == heap && durable == logged && last == logged
    {
      var n := if frameCount == 0 then 1 else frameCount;
      frames := seq(n, _ => EmptyFrame);
      table, dirty, hand := map[], {}, 0;
      disk, nextPage, durable, last := heap, pages, logged, logged;
    }

    /** `wal.flush_through`. */
    method FlushLog(upTo: Lsn)
      modifies this`durable
      ensures durable == Flushed(old(durable), last, upTo)
      ensures old(Valid()) ==> Valid() && Logical() == old(Logical())
    {
      if durable < upTo {
        durable := last;
      }
    }

    /** Write a dirty frame to disk, once the log is durable through its LSN. */
    method WriteBack(f: Frame)
      modifies this`disk, this`durable
      ensures disk == WrittenBack(old(disk), f) && durable == FlushedFor(old(durable), last, f)
    {
      if f.dirty && f.page.Some? {
        FlushLog(f.pageLsn);
        disk := disk[f.page.value := f.content];
      }
    }

    method Forget(f: Frame)
      modifies this`table, this`dirty
      ensures table == TableLess(old(table), f) && dirty == DirtyLess(old(dirty), f)
    {
      if f.page.Some? {
        table := table - {f.page.value};
        dirty := dirty - {f.page.value};
      }
    }

    /** Write back frame `i` if dirty, and empty it. */
    method Evict(i: nat)
      requires Valid() && i < |frames| && frames[i].pins == 0
      modifies this`frames, this`table, this`dirty, this`disk, this`durable
      ensures Valid() && Logical() == old(Logical()) && disk.Keys == old(disk).Keys
      ensures frames == old(frames)[i := Emptied(old(frames[i]))] && table == TableLess(old(table), old(frames[i]))
      ensures !old(frames[i]).dirty ==> disk == old(disk) && durable == old(durable)
    {
      EvictKeeps(frames, table, dirty, disk, durable, last, i);
      assert !frames[i].dirty ==>
        WrittenBack(disk, frames[i]) == disk && FlushedFor(durable, last, frames[i]) == durable;
      hide PoolOk, Contents, Under, WrittenBack, FlushedFor, TableLess, DirtyLess;
      var f := frames[i];
      WriteBack(f);
      Forget(f);
      frames := frames[i := f.(page := None, dirty := false, usage := 0, pageLsn := 0)];
    }

    /**
     * The clock sweep. With usage counts at most 3, four rounds are enough to find an unpinned frame,
     * so it fails exactly when every frame is pinned.
     */
    method Sweep() returns (found: Option<nat>)
      requires Valid()
      modifies this`frames, this`hand
      ensures Valid() && Logical() == old(Logical()) && SameButUsage(old(frames), frames)
      ensures found.None? <==> AllPinned(old(frames))
      ensures found.Some? ==> found.value < |frames| && frames[found.value].pins == 0
    {
      var n := |frames|;
      var visits := 0;
      ghost var was, h0, round, turn := frames, hand, 0, 0;
      SweepStart(frames, hand);
      assert Visits(0, 0, n) == 0 && HandAt(h0, 0, n) == hand;
      UsageBound(frames, table, dirty, disk, durable, last);
      hide PoolOk, Contents, Swept, SameButUsage, Visited, Under, Visits, HandAt, AllPinned;
      while visits < 4 * n
        invariant |frames| == n == |was| && Swept(was, frames, h0, round, turn) && 0 <= turn < n && h0 < n
        invariant visits == Visits(round, turn, n) <= 4 * n && hand == HandAt(h0, turn, n)
        decreases 4 * n - visits
      {
        var i := hand;
        var f := frames[i];
        ghost var round', turn' := if turn + 1 == n then round + 1 else round, if turn + 1 == n then 0 else turn + 1;
        HandStep(h0, round, turn, n);
        hand := (i + 1) % n;
        visits := visits + 1;
        if f.pins == 0 && f.usage == 0 {
          SweptUsage(was, frames, h0, round, turn);
          UsageKeeps(was, frames, table, dirty, disk, durable, last);
          SamePins(was, frames, i);
          return Some(i);
        }
        SweepStep(was, frames, if f.pins > 0 then frames else frames[i := f.(usage := f.usage - 1)], h0, round, turn);
        round, turn := round', turn';
        if f.pins == 0 {
          frames := frames[i := f.(usage := f.usage - 1)];
        }
      }
      SweptUsage(was, frames, h0, round, turn);
      UsageKeeps(was, frames, table, dirty, disk, durable, last);
      SweepDone(was, frames, h0, round, turn);
      found := None;
    }

    /** Find an evictable frame, write it back if dirty, and empty it. */
    method FindVictim() returns (victim: Option<nat>)
      requires Valid()
      modifies this`frames, this`table, this`dirty, this`hand, this`disk, this`durable
      ensures Valid() && Logical() == old(Logical()) && disk.Keys == old(disk).Keys && |frames| == |old(frames)|
      ensures victim.None? <==> AllPinned(old(frames))
      ensures PinnedKept(old(frames), frames)
      ensures victim.Some? ==>
        victim.value < |frames| && frames[victim.value].page.None? && frames[victim.value].pins == 0
      ensures forall p :: p in table ==> p in old(table)
      ensures old(dirty) == {} ==> disk == old(disk) && durable == old(durable)
    {
      NoneDirty(frames, table, dirty, disk, durable, last);
      hide PoolOk, Contents, Under, AllPinned, TableLess;
      victim := Sweep();
      ghost var swept := frames;
      if victim.Some? {
        Evict(victim.value);
        FewerPages(old(table), swept[victim.value]);
      }
    }

    /** Seat a page in a victim frame, pinned, reading it from disk. */
    method Install(p: PageId) returns (idx: Option<nat>)
      requires Valid() && p !in table
      modifies this`frames, this`table, this`dirty, this`hand, this`disk, this`durable
      ensures Valid() && Logical() == old(Logical()) && disk.Keys == old(disk).Keys && PinnedKept(old(frames), frames)
      ensures idx.None? <==> AllPinned(old(frames)) || p !in old(disk)
      ensures idx.Some? ==>
        && idx.value < |frames| && frames[idx.value].page == Some(p) && frames[idx.value].pins == 1
        && old(frames)[idx.value].pins == 0 && frames[idx.value].readers == 0 && !frames[idx.value].writing
      ensures old(dirty) == {} ==> disk == old(disk) && durable == old(durable)
    {
      hide PoolOk, Contents, Under, AllPinned;
      idx := FindVictim();
      if idx.Some? {
        FrameFacts(frames, table, dirty, disk, durable, last, idx.value);
        if p !in disk {
          return None;
        }
        SeatKeeps(frames, table, dirty, disk, durable, last, idx.value, p);
        frames := frames[idx.value := Seated(frames[idx.value], p, disk[p])];
        table := table[p := idx.value];
      }
    }

    /** `pin_for_access`: a hit, or a miss and a load. Either way the frame holds the page's last written content. */
    method PinForAccess(p: PageId) returns (idx: Option<nat>)
      requires Valid()
      modifies this`frames, this`table, this`dirty, this`hand, this`disk, this`durable
      ensures Valid() && Logical() == old(Logical()) && disk.Keys == old(disk).Keys && |frames| == |old(frames)|
      ensures idx.None? <==> p !in old(table) && (AllPinned(old(frames)) || p !in old(disk))
      ensures idx.Some? ==>
        && idx.value < |frames| && Holds(frames[idx.value], Logical(), p)
        && frames[idx.value].pins == old(frames)[idx.value].pins + 1
        && frames[idx.value].readers == (if p in old(table) then old(frames)[idx.value].readers else 0)
        && frames[idx.value].writing == (p in old(table) && old(frames)[idx.value].writing)
      ensures p in old(table) ==>
        idx.Some? && frames == old(frames)[idx.value := Hit(old(frames)[idx.value])] && dirty == old(dirty)
      ensures old(dirty) == {} || p in old(table) ==> disk == old(disk) && durable == old(durable)
      ensures forall i :: 0 <= i < |frames| && old(frames)[i].pins > 0 && idx != Some(i) ==> frames[i] == old(frames)[i]
    {
      hide Contents, Under;
      if p in table {
        var i := table[p];
        var f := frames[i];
        FrameFacts(frames, table, dirty, disk, durable, last, i);
        HoldsPage(frames, table, dirty, disk, durable, last, p);
        var f' := Hit(f);
        TouchKeeps(frames, table, dirty, disk, durable, last, i, f');
        hide PoolOk;
        assert Logical()[p := f'.content] == Logical();
        frames := frames[i := f'];
        idx := Some(i);
      } else {
        hide PoolOk, AllPinned;
        idx := Install(p);
        if idx.Some? {
          PageHeld(frames, table, dirty, disk, durable, last, idx.value);
        }
      }
    }

    /** `new_page`: allocate a page of zeros and pin it. */
    method NewPage() returns (p: PageId, idx: Option<nat>)
      requires Valid()
      modifies this`frames, this`table, this`dirty, this`hand, this`disk, this`durable, this`nextPage
      ensures Valid() && p == old(nextPage) && p !in old(disk)
      ensures Logical() == old(Logical())[p := Zeros] && PinnedKept(old(frames), frames)
      ensures idx.None? <==> AllPinned(old(frames))
      ensures idx.Some? ==>
        idx.value < |frames| && Holds(frames[idx.value], Logical(), p) && frames[idx.value].pins == 1
    {
      p := nextPage;
      AllocKeeps(frames, table, dirty, disk, durable, last, p);
      hide PoolOk, Contents, AllPinned;
      nextPage := p + 1;
      disk := disk[p := Zeros];
      idx := Install(p);
      if idx.Some? {
        PageHeld(frames, table, dirty, disk, durable, last, idx.value);
      }
    }

    /** `wal.append`, as far as the pool is concerned: a later LSN exists. */
    method AppendLog() returns (lsn: Lsn)
      requires Valid()
      modifies this`last
      ensures Valid() && lsn == last && last == old(last) + 1 && Logical() == old(Logical())
    {
      LaterLog(frames, table, dirty, disk, durable, last);
      last := last + 1;
      lsn := last;
    }

    // ----- Guards -----

    /** The content latch of a read guard; its holder has a pin of its own. */
    method LatchRead(i: nat) returns (content: Content)
      requires Valid() && i < |frames| && frames[i].page.Some? && frames[i].readers < frames[i].pins
        && !frames[i].writing
      modifies this`frames
      ensures Valid() && Logical() == old(Logical())
        && frames == old(frames)[i := old(frames[i]).(readers := old(frames[i]).readers + 1)]
      ensures Holds(frames[i], Logical(), frames[i].page.value) && content == frames[i].content
    {
      Change(i, frames[i].(readers := frames[i].readers + 1));
      content := frames[i].content;
    }

    method LatchWrite(i: nat)
      requires Valid() && i < |frames| && frames[i].page.Some? && frames[i].readers == 0 < frames[i].pins
        && !frames[i].writing
      modifies this`frames
      ensures Valid() && Logical() == old(Logical()) && frames == old(frames)[i := old(frames[i]).(writing := true)]
      ensures Holds(frames[i], Logical(), frames[i].page.value)
    {
      Change(i, frames[i].(writing := true));
    }

    /** Writing through the guard. The bytes of the LSN are raised only by `SetPageLsn`. */
    method Write(i: nat, content: Content)
      requires Valid() && i < |frames| && frames[i].page.Some? && frames[i].writing && content.lsn <= frames[i].pageLsn
      modifies this`frames
      ensures Valid() && Logical() == old(Logical())[old(frames[i]).page.value := content]
      ensures frames == old(frames)[i := old(frames[i]).(content := content)]
    {
      Change(i, frames[i].(content := content));
    }

    method SetPageLsn(i: nat, lsn: Lsn)
      requires Valid() && i < |frames| && frames[i].page.Some? && frames[i].writing && lsn <= last
      modifies this`frames
      ensures Valid()
      ensures Logical() == old(Logical())[old(frames[i]).page.value := old(frames[i]).content.(lsn := lsn)]
      ensures var f := old(frames[i]);
        frames == old(frames)[i := f.(content := f.content.(lsn := lsn),
          pageLsn := if lsn > f.pageLsn then lsn else f.pageLsn)]
    {
      var f := frames[i];
      Change(i, f.(content := f.content.(lsn := lsn), pageLsn := if lsn > f.pageLsn then lsn else f.pageLsn));
    }

    /** A change to one frame that keeps its page and its dirty flag. */
    method Change(i: nat, f: Frame)
      requires Valid() && i < |frames| && f.page == frames[i].page && f.page.Some? && f.dirty == frames[i].dirty
      requires FrameOk(frames[i], disk, last) ==> FrameOk(f, disk, last)
      modifies this`frames
      ensures Valid() && frames == old(frames)[i := f] && Holds(f, Logical(), f.page.value)
      ensures Logical() == old(Logical())[f.page.value := f.content]
      ensures f.content == old(frames[i]).content ==> Logical() == old(Logical())
    {
      FrameFacts(frames, table, dirty, disk, durable, last, i);
      PageHeld(frames, table, dirty, disk, durable, last, i);
      TouchKeeps(frames, table, dirty, disk, durable, last, i, f);
      hide PoolOk, Contents, Under;
      assert f.content == frames[i].content ==> Logical()[f.page.value := f.content] == Logical();
      frames := frames[i := f];
    }

    /** Dropping a read guard. */
    method DropRead(i: nat)
      requires Valid() && i < |frames| && frames[i].page.Some? && frames[i].readers > 0
      modifies this`frames
      ensures Valid() && Logical() == old(Logical())
      ensures var f := old(frames[i]); frames == old(frames)[i := f.(pins := f.pins - 1, readers := f.readers - 1)]
    {
      FrameFacts(frames, table, dirty, disk, durable, last, i);
      Change(i, frames[i].(readers := frames[i].readers - 1, pins := frames[i].pins - 1));
    }

    /** Dropping a write guard: the page is marked dirty before the latch and the pin are given back. */
    method DropWrite(i: nat)
      requires Valid() && i < |frames| && frames[i].page.Some? && frames[i].writing
      modifies this`frames, this`dirty
      ensures Valid() && Logical() == old(Logical())
      ensures var f := old(frames[i]);
        && frames == old(frames)[i := f.(dirty := true, writing := false, pins := f.pins - 1)]
        && dirty == old(dirty) + {f.page.value}
    {
      FrameFacts(frames, table, dirty, disk, durable, last, i);
      var f := frames[i];
      var f' := f.(dirty := true, writing := false, pins := f.pins - 1);
      MarkKeeps(frames, table, dirty, disk, durable, last, i, f');
      hide PoolOk, Contents, Under;
      dirty := dirty + {f.page.value};
      frames := frames[i := f'];
    }

    // ----- Flushing -----

    /** The first look at a candidate of `flush_matching`: its page and LSN, if it is to be flushed. */
    method Peek(i: nat, upTo: Option<Lsn>) returns (t: Option<Ticket>)
      requires Valid() && i < |frames|
      ensures var f := frames[i];
        t == if f.page.Some? && f.dirty && InBound(f, upTo) then Some(Ticket(f.page.value, f.pageLsn)) else None
      ensures t.Some? ==> t.value.page in disk
    {
      FrameFacts(frames, table, dirty, disk, durable, last, i);
      var f := frames[i];
      t := if f.page.Some? && f.dirty && InBound(f, upTo) then Some(Ticket(f.page.value, f.pageLsn)) else None;
    }

    /**
     * The second look, at whatever the frame has become since: latched by a writer it is skipped, otherwise
     * its content is written to the page of the first look once the log is durable through the LSN of the
     * first look. The pool stays a cache exactly when `SafeNow` says so.
     */
    method Copy(i: nat, t: Ticket) returns (wrote: bool)
      requires Valid() && i < |frames| && t.page in disk
      modifies this`disk, this`durable
      ensures wrote <==> !frames[i].writing
      ensures disk == if wrote then old(disk)[t.page := frames[i].content] else old(disk)
      ensures durable == if wrote then Flushed(old(durable), last, t.lsn) else old(durable)
      ensures disk.Keys == old(disk).Keys
      ensures Valid() && Logical() == old(Logical()) <==> old(SafeNow(frames, table, disk, durable, last, i, t))
    {
      CopyIff(frames, table, dirty, disk, durable, last, i, t);
      hide PoolOk, Contents, SafeNow;
      wrote := !frames[i].writing;
      if wrote {
        FlushLog(t.lsn);
        disk := disk[t.page := frames[i].content];
      }
    }

    /**
     * The third look: a frame that still holds the page with the LSN of the first look is clean from now on,
     * whatever happened since its content was copied.
     */
    method Clear(i: nat, t: Ticket)
      requires Valid() && i < |frames| && t.page in disk
      modifies this`frames, this`dirty
      ensures frames == old(frames)[i := Cleared(old(frames)[i], t)]
      ensures dirty == if Matches(old(frames)[i], t) then old(dirty) - {t.page} else old(dirty)
      ensures Logical() == old(Logical())
      ensures Valid() <==>
        Matches(old(frames)[i], t) ==> old(frames)[i].writing || old(frames)[i].content == disk[t.page]
    {
      ClearIff(frames, table, dirty, disk, durable, last, i, t);
      hide PoolOk, Contents;
      var f := frames[i];
      if Matches(f, t) {
        frames := frames[i := f.(dirty := false)];
        dirty := dirty - {t.page};
      } else {
        assert frames == frames[i := f];
      }
    }

    /**
     * One candidate of `flush_matching`, with nothing in between: skipped if clean, past the bound or being
     * written.
     */
    method FlushOne(i: nat, upTo: Option<Lsn>)
      requires Valid() && i < |frames|
      modifies this`frames, this`dirty, this`disk, this`durable
      ensures Valid() && Logical() == old(Logical()) && disk.Keys == old(disk).Keys
      ensures var f := old(frames[i]);
        if f.page.Some? && f.dirty && InBound(f, upTo) && !f.writing
        then frames == old(frames)[i := f.(dirty := false)] && dirty == old(dirty) - {f.page.value}
        else frames == old(frames) && dirty == old(dirty)
    {
      var t := Peek(i, upTo);
      if t.Some? {
        SameIsSafe(frames, table, dirty, disk, durable, last, i, t.value);
        hide PoolOk, Contents, SafeNow;
        var wrote := Copy(i, t.value);
        if wrote { Clear(i, t.value); }
      }
    }

    /** `flush_matching`: every dirty page within the bound that nobody is writing reaches the disk. */
    method FlushMatching(upTo: Option<Lsn>)
      requires Valid()
      modifies this`frames, this`dirty, this`disk, this`durable
      ensures Valid() && Logical() == old(Logical()) && disk.Keys == old(disk).Keys && |frames| == |old(frames)|
      ensures Flushing(old(frames), frames, table, old(dirty), dirty, {}, upTo)
    {
      hide PoolOk, Contents, Under, Flushing;
      var todo := dirty;
      FlushStart(frames, table, dirty, disk, durable, last, upTo);
      while todo != {}
        invariant Valid() && Logical() == old(Logical()) && disk.Keys == old(disk).Keys && |frames| == |old(frames)|
        invariant Flushing(old(frames), frames, table, old(dirty), dirty, todo, upTo)
        decreases todo
      {
        var p :| p in todo;
        InTodo(old(frames), frames, table, old(dirty), dirty, todo, upTo, p);
        DirtyFrame(frames, table, dirty, disk, durable, last, p);
        ghost var mid, dirt := frames, dirty;
        FlushOne(table[p], upTo);
        FlushStep(old(frames), mid, frames, table, old(dirty), dirt, dirty, todo, upTo, p);
        todo := todo - {p};
      }
    }

    /** `flush_all` with no writer leaves the disk equal to the logical contents. */
    method FlushAll()
      requires Valid()
      modifies this`frames, this`dirty, this`disk, this`durable
      ensures Valid() && Logical() == old(Logical())
      ensures (forall i :: 0 <= i < |old(frames)| ==> !old(frames)[i].writing) ==> dirty == {} && disk == Logical()
    {
      FlushMatching(None);
      if forall i :: 0 <= i < |frames| ==> !frames[i].writing {
        assert dirty == {};
        AllOnDisk(frames, table, disk, durable, last);
      }
    }
  }

  // ----- Between the looks of a flush -----

  /** What the first look at a frame found: the page it held, and its LSN. */
  datatype Ticket = Ticket(page: PageId, lsn: Lsn)

  predicate Matches(f: Frame, t: Ticket) {
    f.page == Some(t.page) && f.pageLsn == t.lsn && f.dirty
  }

  function Cleared(f: Frame, t: Ticket): Frame {
    if Matches(f, t) then f.(dirty := false) else f
  }

  /**
   * Whether writing the content of frame `i` to the page of the ticket does no harm: the log is durable
   * through the LSN the content has now, and whoever would read the page from disk may read this content.
   */
  ghost predicate SafeNow(frames: seq<Frame>, table: map<PageId, nat>, disk: Disk, durable: Lsn, last: Lsn, i: nat,
                          t: Ticket)
    requires i < |frames| && t.page in disk
  {
    var f := frames[i];
    f.writing ||
    (&& f.content.lsn <= Flushed(durable, last, t.lsn)
     && if t.page in table && table[t.page] < |frames|
        then var g := frames[table[t.page]]; table[t.page] == i || g.dirty || g.writing || g.content == f.content
        else f.content == disk[t.page])
  }

  /** A frame that still holds the same page with the same LSN may be written. */
  lemma SameIsSafe(frames: seq<Frame>, table: map<PageId, nat>, dirty: set<PageId>, disk: Disk, durable: Lsn, last: Lsn,
                   i: nat, t: Ticket)
    requires PoolOk(frames, table, dirty, disk, durable, last) && i < |frames| && t.page in disk
    requires frames[i].page == Some(t.page) && frames[i].pageLsn == t.lsn
    ensures SafeNow(frames, table, disk, durable, last, i, t)
  {
    assert FrameOk(frames[i], disk, last);
  }

  /** Exactly when the second look may write: afterwards the pool is valid and every page is what it was. */
  lemma CopyIff(frames: seq<Frame>, table: map<PageId, nat>, dirty: set<PageId>, disk: Disk, durable: Lsn, last: Lsn,
                i: nat, t: Ticket)
    requires PoolOk(frames, table, dirty, disk, durable, last) && i < |frames| && t.page in disk
    ensures var f := frames[i];
      var disk' := if f.writing then disk else disk[t.page := f.content];
      var durable' := if f.writing then durable else Flushed(durable, last, t.lsn);
      && disk'.Keys == disk.Keys
      && (SafeNow(frames, table, disk, durable, last, i, t) <==>
            PoolOk(frames, table, dirty, disk', durable', last)
            && Contents(frames, table, disk') == Contents(frames, table, disk))
  {
    var f := frames[i];
    assert FrameOk(f, disk, last);
    if f.writing {
    } else if SafeNow(frames, table, disk, durable, last, i, t) {
      CopySafe(frames, table, dirty, disk, durable, last, i, t);
    } else {
      CopyUnsafe(frames, table, dirty, disk, durable, last, i, t);
    }
  }

  lemma CopySafe(frames: seq<Frame>, table: map<PageId, nat>, dirty: set<PageId>, disk: Disk, durable: Lsn, last: Lsn,
                 i: nat, t: Ticket)
    requires PoolOk(frames, table, dirty, disk, durable, last) && i < |frames| && t.page in disk && !frames[i].writing
    requires SafeNow(frames, table, disk, durable, last, i, t)
    ensures var disk' := disk[t.page := frames[i].content];
      && PoolOk(frames, table, dirty, disk', Flushed(durable, last, t.lsn), last)
      && Contents(frames, table, disk') == Contents(frames, table, disk)
  {
    var f := frames[i];
    var disk' := disk[t.page := f.content];
    assert FrameOk(f, disk, last);
    forall j | 0 <= j < |frames| ensures FrameOk(frames[j], disk', last) {
      assert FrameOk(frames[j], disk, last);
    }
    forall p | p in disk ensures ContentOf(frames, table, disk', p) == ContentOf(frames, table, disk, p) {
    }
    assert Contents(frames, table, disk') == Contents(frames, table, disk);
  }

  lemma CopyUnsafe(frames: seq<Frame>, table: map<PageId, nat>, dirty: set<PageId>, disk: Disk, durable: Lsn,
                   last: Lsn, i: nat, t: Ticket)
    requires PoolOk(frames, table, dirty, disk, durable, last) && i < |frames| && t.page in disk && !frames[i].writing
    requires !SafeNow(frames, table, disk, durable, last, i, t)
    ensures var disk' := disk[t.page := frames[i].content];
      !(PoolOk(frames, table, dirty, disk', Flushed(durable, last, t.lsn), last)
        && Contents(frames, table, disk') == Contents(frames, table, disk))
  {
    var f := frames[i];
    var disk' := disk[t.page := f.content];
    if f.content.lsn > Flushed(durable, last, t.lsn) {
      assert !Logged(disk', Flushed(durable, last, t.lsn)) by { assert disk'[t.page].lsn == f.content.lsn; }
    } else if t.page in table && table[t.page] < |frames| {
      assert !FrameOk(frames[table[t.page]], disk', last);
    } else {
      assert Contents(frames, table, disk')[t.page] != Contents(frames, table, disk)[t.page];
    }
  }

  /** Exactly when the third look may clear: the frame has not been given other content under the same LSN. */
  lemma ClearIff(frames: seq<Frame>, table: map<PageId, nat>, dirty: set<PageId>, disk: Disk, durable: Lsn, last: Lsn,
                 i: nat, t: Ticket)
    requires PoolOk(frames, table, dirty, disk, durable, last) && i < |frames| && t.page in disk
    ensures var f := frames[i];
      var frames', dirty' := frames[i := Cleared(f, t)], if Matches(f, t) then dirty - {t.page} else dirty;
      && Contents(frames', table, disk) == Contents(frames, table, disk)
      && (PoolOk(frames', table, dirty', disk, durable, last) <==>
            Matches(f, t) ==> f.writing || f.content == disk[t.page])
  {
    var f := frames[i];
    var frames' := frames[i := Cleared(f, t)];
    assert FrameOk(f, disk, last);
    forall p | p in disk ensures ContentOf(frames', table, disk, p) == ContentOf(frames, table, disk, p) {
    }
    if !Matches(f, t) {
      assert frames' == frames;
    } else if f.writing || f.content == disk[t.page] {
      forall j | 0 <= j < |frames'| ensures FrameOk(frames'[j], disk, last) {
        assert FrameOk(frames[j], disk, last);
      }
    } else {
      assert !FrameOk(frames'[i], disk, last);
    }
  }

  lemma NoneDirty(frames: seq<Frame>, table: map<PageId, nat>, dirty: set<PageId>, disk: Disk, durable: Lsn, last: Lsn)
    requires PoolOk(frames, table, dirty, disk, durable, last)
    ensures dirty == {} ==> forall i :: 0 <= i < |frames| ==> !frames[i].dirty
  {
    forall i | 0 <= i < |frames| ensures dirty == {} ==> !frames[i].dirty {
      assert FrameOk(frames[i], disk, last);
    }
  }

  /** Flushing changes dirty flags only; what stays dirty is still to do, out of bound or being written. */
  ghost predicate Flushing(was: seq<Frame>, frames: seq<Frame>, table: map<PageId, nat>, dirty0: set<PageId>,
                           dirty: set<PageId>, todo: set<PageId>, upTo: Option<Lsn>) {
    && |frames| == |was| && todo <= dirty <= dirty0
    && (forall i :: 0 <= i < |was| ==> frames[i] == was[i].(dirty := frames[i].dirty))
    && (forall p :: p in dirty ==> p in table && table[p] < |was|)
    && (forall p :: p in dirty && p !in todo ==> !InBound(was[table[p]], upTo) || was[table[p]].writing)
  }

  lemma FlushStart(frames: seq<Frame>, table: map<PageId, nat>, dirty: set<PageId>, disk: Disk, durable: Lsn, last: Lsn,
                   upTo: Option<Lsn>)
    requires PoolOk(frames, table, dirty, disk, durable, last)
    ensures Flushing(frames, frames, table, dirty, dirty, dirty, upTo)
  {
  }

  lemma InTodo(was: seq<Frame>, frames: seq<Frame>, table: map<PageId, nat>, dirty0: set<PageId>, dirty: set<PageId>,
               todo: set<PageId>, upTo: Option<Lsn>, p: PageId)
    requires Flushing(was, frames, table, dirty0, dirty, todo, upTo) && p in todo
    ensures p in dirty
  {
  }

  lemma FlushStep(was: seq<Frame>, mid: seq<Frame>, frames: seq<Frame>, table: map<PageId, nat>, dirty0: set<PageId>,
                  dirt: set<PageId>, dirty: set<PageId>, todo: set<PageId>, upTo: Option<Lsn>, p: PageId)
    requires Flushing(was, mid, table, dirty0, dirt, todo, upTo) && p in todo && p in table && table[p] < |mid|
    requires var f := mid[table[p]];
      && f.page == Some(p) && f.dirty
      && if InBound(f, upTo) && !f.writing then frames == mid[table[p] := f.(dirty := false)] && dirty == dirt - {p}
         else frames == mid && dirty == dirt
    ensures Flushing(was, frames, table, dirty0, dirty, todo - {p}, upTo)
  {
  }

  predicate InBound(f: Frame, upTo: Option<Lsn>) {
    upTo.None? || f.pageLsn <= upTo.value
  }

  lemma DirtyFrame(frames: seq<Frame>, table: map<PageId, nat>, dirty: set<PageId>, disk: Disk, durable: Lsn, last: Lsn,
                   p: PageId)
    requires PoolOk(frames, table, dirty, disk, durable, last) && p in dirty
    ensures p in table && table[p] < |frames| && frames[table[p]].dirty && frames[table[p]].page == Some(p)
  {
  }

  lemma LaterLog(frames: seq<Frame>, table: map<PageId, nat>, dirty: set<PageId>, disk: Disk, durable: Lsn, last: Lsn)
    requires PoolOk(frames, table, dirty, disk, durable, last)
    ensures PoolOk(frames, table, dirty, disk, durable, last + 1)
  {
    forall i | 0 <= i < |frames| ensures FrameOk(frames[i], disk, last + 1) {
      assert FrameOk(frames[i], disk, last);
    }
  }

  /** The frame holds page `p` with the content the page logically has. */
  ghost predicate Holds(f: Frame, logical: map<PageId, Content>, p: PageId) {
    f.page == Some(p) && p in logical && f.content == logical[p]
  }

  lemma HoldsPage(frames: seq<Frame>, table: map<PageId, nat>, dirty: set<PageId>, disk: Disk, durable: Lsn, last: Lsn,
                  p: PageId)
    requires PoolOk(frames, table, dirty, disk, durable, last) && p in table
    ensures table[p] < |frames| && Holds(frames[table[p]], Contents(frames, table, disk), p)
  {
    assert FrameOk(frames[table[p]], disk, last);
  }

  lemma PageHeld(frames: seq<Frame>, table: map<PageId, nat>, dirty: set<PageId>, disk: Disk, durable: Lsn, last: Lsn,
                 i: nat)
    requires PoolOk(frames, table, dirty, disk, durable, last) && i < |frames| && frames[i].page.Some?
    ensures Holds(frames[i], Contents(frames, table, disk), frames[i].page.value)
  {
    HoldsPage(frames, table, dirty, disk, durable, last, frames[i].page.value);
  }

  lemma AllocKeeps(frames: seq<Frame>, table: map<PageId, nat>, dirty: set<PageId>, disk: Disk, durable: Lsn, last: Lsn,
                   p: PageId)
    requires PoolOk(frames, table, dirty, disk, durable, last) && Under(disk.Keys, p)
    ensures p !in disk && p !in table && Under(disk[p := Zeros].Keys, p + 1)
    ensures PoolOk(frames, table, dirty, disk[p := Zeros], durable, last)
    ensures Contents(frames, table, disk[p := Zeros]) == Contents(frames, table, disk)[p := Zeros]
  {
    forall i | 0 <= i < |frames| ensures FrameOk(frames[i], disk[p := Zeros], last) {
      assert FrameOk(frames[i], disk, last);
    }
    forall q | q in table ensures q in disk {
      assert FrameOk(frames[table[q]], disk, last);
    }
  }

  /** A pinned frame is never touched by eviction. */
  ghost predicate PinnedKept(was: seq<Frame>, frames: seq<Frame>) {
    |was| == |frames| && forall i :: 0 <= i < |was| && was[i].pins > 0 ==> frames[i] == was[i]
  }

  lemma SamePins(was: seq<Frame>, frames: seq<Frame>, i: nat)
    requires SameButUsage(was, frames) && i < |was|
    ensures frames[i].pins == was[i].pins
  {
  }

  lemma FewerPages(table: map<PageId, nat>, f: Frame)
    ensures forall p :: p in TableLess(table, f) ==> p in table
  {
  }
}
