/**
 * Three runs in which a flush does harm. `flush_matching` looks at a frame's page and LSN, lets go of it, looks
 * again to write its content, lets go of it, and looks a third time to mark it clean; nothing keeps the frame from
 * changing in between.
 */
module FlushRace {
  import opened Options
  import opened BufferPool

  /** A pool of one frame that nobody holds. */
  ghost predicate Small(pool: BufferPool)
    reads pool
  {
    pool.Valid() && |pool.frames| == 1 && pool.frames[0].pins == 0
  }

  lemma OneFrame(frames: seq<Frame>, table: map<PageId, nat>, dirty: set<PageId>, disk: Disk, durable: Lsn, last: Lsn,
                 p: PageId)
    requires PoolOk(frames, table, dirty, disk, durable, last) && |frames| == 1
    ensures p in table <==> frames[0].page == Some(p)
    ensures p in table ==> table[p] == 0
    ensures FrameOk(frames[0], disk, last)
  {
    assert FrameOk(frames[0], disk, last);
  }

  /** Pin and latch page `p`. */
  method Take(pool: BufferPool, p: PageId)
    requires Small(pool) && p in pool.disk && (p in pool.table || pool.dirty == {})
    modifies pool
    ensures pool.Valid() && |pool.frames| == 1 && pool.disk == old(pool.disk) && pool.durable == old(pool.durable)
    ensures pool.last == old(pool.last) && pool.Logical() == old(pool.Logical())
    ensures Held(pool.frames[0], p)
  {
    OneFrame(pool.frames, pool.table, pool.dirty, pool.disk, pool.durable, pool.last, p);
    hide PoolOk, Contents, Under;
    var idx := pool.PinForAccess(p);
    pool.LatchWrite(0);
  }

  predicate Held(f: Frame, p: PageId) {
    f.page == Some(p) && f.pins == 1 && f.readers == 0 && f.writing
  }

  /** Write the body, log the change, set the LSN. */
  method Fill(pool: BufferPool, p: PageId, body: seq<int>) returns (lsn: Lsn)
    requires pool.Valid() && |pool.frames| == 1 && Held(pool.frames[0], p)
    modifies pool`frames, pool`last
    ensures pool.Valid() && |pool.frames| == 1 && Held(pool.frames[0], p)
    ensures pool.last == old(pool.last) + 1 == lsn && pool.Logical() == old(pool.Logical())[p := Content(lsn, body)]
    ensures pool.frames[0].pageLsn == lsn && pool.frames[0].content == Content(lsn, body)
  {
    OneFrame(pool.frames, pool.table, pool.dirty, pool.disk, pool.durable, pool.last, p);
    var was := pool.frames[0];
    FrameLsn(was, pool.disk, pool.last);
    hide PoolOk, Contents, Under, FrameOk, Holds;
    ghost var logical: map<PageId, Content> := pool.Logical();
    pool.Write(0, Content(was.content.lsn, body));
    lsn := pool.AppendLog();
    pool.SetPageLsn(0, lsn);
    assert logical[p := Content(was.content.lsn, body)][p := Content(lsn, body)] == logical[p := Content(lsn, body)];
  }

  /** A writer's turn on page `p`: pin, latch, write the body, log, set the LSN, let go. */
  method Rewrite(pool: BufferPool, p: PageId, body: seq<int>) returns (lsn: Lsn)
    requires Small(pool) && p in pool.disk && (p in pool.table || pool.dirty == {})
    modifies pool
    ensures Small(pool) && pool.disk == old(pool.disk) && pool.durable == old(pool.durable)
    ensures pool.last == old(pool.last) + 1 == lsn && pool.Logical() == old(pool.Logical())[p := Content(lsn, body)]
    ensures p in pool.table
    ensures var f := pool.frames[0];
      f.page == Some(p) && f.readers == 0 && !f.writing && f.dirty && f.pageLsn == lsn
        && f.content == Content(lsn, body)
  {
    hide PoolOk, Contents, Under, FrameOk, Holds;
    Take(pool, p);
    lsn := Fill(pool, p, body);
    OneFrame(pool.frames, pool.table, pool.dirty, pool.disk, pool.durable, pool.last, p);
    pool.DropWrite(0);
  }

  lemma FrameLsn(f: Frame, disk: Disk, last: Lsn)
    requires FrameOk(f, disk, last) && f.page.Some?
    ensures f.content.lsn <= f.pageLsn <= last
  {
  }

  /**
   * The page is written again between the two looks: the disk gets content with an LSN the log is not
   * durable through.
   */
  method FlushAheadOfLog() returns (pool: BufferPool)
    ensures fresh(pool) && 0 in pool.disk && pool.disk[0].lsn > pool.durable && !Logged(pool.disk, pool.durable)
  {
    pool := new BufferPool(1, map[0 := Zeros], 1, 0);
    hide PoolOk, Contents, Under, SafeNow;
    var first := Rewrite(pool, 0, [1]);
    var ticket := pool.Peek(0, None);
    pool.FlushLog(first);
    var second := Rewrite(pool, 0, [2]);
    var wrote := pool.Copy(0, ticket.value);
  }

  /** The frame is given to another page between the two looks: a page comes back with that page's content. */
  method FlushWrongPage() returns (pool: BufferPool, was: Content, now: Content)
    ensures fresh(pool) && was == Content(1, [1]) && now == Zeros && 0 in pool.Logical() && pool.Logical()[0] == now
  {
    pool := new BufferPool(1, map[0 := Zeros, 1 := Zeros], 2, 0);
    hide PoolOk, Contents, Under, SafeNow, FrameOk, Holds;
    var lsn := Rewrite(pool, 0, [1]);
    was := pool.frames[0].content;
    var ticket := pool.Peek(0, None);
    Displace(pool, 0, 1);
    now := pool.frames[0].content;
    var wrote := pool.Copy(0, ticket.value);
    FromDisk(pool.frames, pool.table, pool.disk, 0);
  }

  /**
   * The page is changed under the same LSN between the second and the third look: it is marked clean although
   * the disk does not have the change, so that an eviction would drop it.
   */
  method FlushForgetsWrite() returns (pool: BufferPool)
    ensures fresh(pool) && |pool.frames| == 1 && 0 in pool.disk && !pool.Valid()
    ensures var f := pool.frames[0]; f.page == Some(0) && !f.dirty && !f.writing && f.content.body != pool.disk[0].body
  {
    pool := new BufferPool(1, map[0 := Zeros], 1, 0);
    hide PoolOk, Contents, Under, SafeNow, FrameOk, Holds;
    var lsn := Rewrite(pool, 0, [1]);
    var ticket := pool.Peek(0, None);
    SameIsSafe(pool.frames, pool.table, pool.dirty, pool.disk, pool.durable, pool.last, 0, ticket.value);
    var wrote := pool.Copy(0, ticket.value);
    Touch(pool, 0, [2]);
    pool.Clear(0, ticket.value);
  }

  /** Pin and latch a page that is in the pool. */
  method Retake(pool: BufferPool, p: PageId)
    requires Small(pool) && p in pool.disk && p in pool.table
    modifies pool
    ensures pool.Valid() && |pool.frames| == 1 && pool.disk == old(pool.disk) && Held(pool.frames[0], p)
    ensures pool.frames[0].pageLsn == old(pool.frames[0].pageLsn)
    ensures pool.frames[0].content == old(pool.frames[0].content)
  {
    OneFrame(pool.frames, pool.table, pool.dirty, pool.disk, pool.durable, pool.last, p);
    hide PoolOk, Contents, Under;
    var idx := pool.PinForAccess(p);
    pool.LatchWrite(0);
  }

  /** A writer's turn on page `p` that leaves its LSN alone. */
  method Touch(pool: BufferPool, p: PageId, body: seq<int>)
    requires Small(pool) && p in pool.disk && p in pool.table
    modifies pool
    ensures Small(pool) && pool.disk == old(pool.disk)
    ensures var f := pool.frames[0];
      f.page == Some(p) && !f.writing && f.dirty && f.pageLsn == old(pool.frames[0].pageLsn)
      && f.content == Content(old(pool.frames[0].content.lsn), body)
  {
    hide PoolOk, Contents, Under, FrameOk, Holds;
    Retake(pool, p);
    OneFrame(pool.frames, pool.table, pool.dirty, pool.disk, pool.durable, pool.last, p);
    FrameLsn(pool.frames[0], pool.disk, pool.last);
    pool.Write(0, Content(pool.frames[0].content.lsn, body));
    pool.DropWrite(0);
  }

  /** Page `q` takes the frame of page `p`. */
  method Displace(pool: BufferPool, p: PageId, q: PageId)
    requires Small(pool) && q in pool.disk && p in pool.disk && p != q && pool.frames[0].page == Some(p)
    modifies pool
    ensures pool.Valid() && |pool.frames| == 1 && pool.disk.Keys == old(pool.disk).Keys && p !in pool.table
    ensures pool.Logical() == old(pool.Logical()) && q in pool.Logical() && pool.frames[0].content == pool.Logical()[q]
    ensures !pool.frames[0].writing
  {
    OneFrame(pool.frames, pool.table, pool.dirty, pool.disk, pool.durable, pool.last, q);
    hide PoolOk, Contents, Under;
    var idx := pool.PinForAccess(q);
    OneFrame(pool.frames, pool.table, pool.dirty, pool.disk, pool.durable, pool.last, p);
  }

  lemma FromDisk(frames: seq<Frame>, table: map<PageId, nat>, disk: Disk, p: PageId)
    requires p in disk && p !in table
    ensures p in Contents(frames, table, disk) && Contents(frames, table, disk)[p] == disk[p]
  {
  }
}
