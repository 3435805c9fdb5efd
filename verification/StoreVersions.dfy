/**
 * The version machine read off the pages. Every log of the record store is, its page bookkeeping
 * dropped, a log of `Mvcc`, and the rows on the pages are exactly the versions of that log. What is
 * proved of chains of versions is so carried to the rows a recovered store returns.
 */
module StoreVersions {
  import opened Bytes
  import opened Options
  import opened Visibility
  import opened RecordHeader
  import opened Redo
  import opened StoreLog
  import M = Mvcc
  import R = Recovery
  import S = Store

  /** How a payload is read as a number; nothing below depends on the choice. */
  type Reader = seq<byte> -> int

  /** The rows in the order of their Insert records. */
  function Born(log: seq<Rec>): seq<RecordId> {
    if log == [] then []
    else
      var pre, r := log[..|log| - 1], log[|log| - 1];
      if r.payload.Insert? then Born(pre) + [RecordId(r.payload.page, r.payload.slot)] else Born(pre)
  }

  /** The birth number of a row, past the end if it has none. */
  function Name(rids: seq<RecordId>, rid: RecordId): (n: nat)
    ensures n <= |rids| && (n < |rids| <==> rid in rids) && (n < |rids| ==> rids[n] == rid)
  {
    if rids == [] then 0
    else
      var n := Name(rids[..|rids| - 1], rid);
      if n < |rids| - 1 then n else if rids[n] == rid then n else |rids|
  }

  function Named(rids: seq<RecordId>, prev: Option<RecordId>): Option<nat> {
    match prev
    case None => None
    case Some(rid) => Some(Name(rids, rid))
  }

  /** The record of the version machine that a store record is, if it is one. */
  function Meaning(rids: seq<RecordId>, r: Rec, read: Reader): seq<M.LogRecord> {
    match r.payload
    case Insert(_, _, after) =>
      if |after| < HEADER_SIZE then []
      else [M.Insert(r.txn, Named(rids, DecodeHeader(after).value.prev), read(after[HEADER_SIZE..]))]
    case Update(p, slot, _, _) => [M.Stamp(r.txn, Name(rids, RecordId(p, slot)), false)]
    case Delete(p, slot, _) => [M.Stamp(r.txn, Name(rids, RecordId(p, slot)), true)]
    case Commit => [M.Commit(r.txn)]
    case Abort => [M.Abort(r.txn)]
    case _ => []
  }

  function Versions(log: seq<Rec>, read: Reader): seq<M.LogRecord> {
    if log == [] then []
    else Versions(log[..|log| - 1], read) + Meaning(Born(log[..|log| - 1]), log[|log| - 1], read)
  }

  lemma Step(log: seq<Rec>, r: Rec, read: Reader)
    ensures Versions(log + [r], read) == Versions(log, read) + Meaning(Born(log), r, read)
    ensures Born(log + [r]) ==
      if r.payload.Insert? then Born(log) + [RecordId(r.payload.page, r.payload.slot)] else Born(log)
  {
    assert (log + [r])[..|log|] == log;
  }

  // ----- Names -----

  ghost predicate Distinct(rids: seq<RecordId>) {
    forall i, j :: 0 <= i < j < |rids| ==> rids[i] != rids[j]
  }

  lemma NameAt(rids: seq<RecordId>, n: nat)
    requires Distinct(rids) && n < |rids|
    ensures Name(rids, rids[n]) == n
  {
    var m := Name(rids, rids[n]);
    assert rids[m] == rids[n];
  }

  /** Later rows do not rename earlier ones. */
  lemma NameKept(rids: seq<RecordId>, rid: RecordId, more: RecordId)
    requires rid in rids
    ensures Name(rids + [more], rid) == Name(rids, rid)
  {
    assert (rids + [more])[..|rids|] == rids;
  }

  // ----- Rows are versions -----

  /** A version that says of a row what its header and its payload say. */
  ghost predicate IsVersion(v: M.Version, bytes: seq<byte>, rids: seq<RecordId>, read: Reader) {
    && |bytes| >= HEADER_SIZE
    && v.xmin == DecodeHeader(bytes).value.xmin && v.xmax == DecodeHeader(bytes).value.xmax
    && v.prev == Named(rids, DecodeHeader(bytes).value.prev)
    && v.data == read(bytes[HEADER_SIZE..])
  }

  ghost predicate PrevBorn(bytes: seq<byte>, rids: seq<RecordId>) {
    |bytes| >= HEADER_SIZE && (DecodeHeader(bytes).value.prev.Some? ==> DecodeHeader(bytes).value.prev.value in rids)
  }

  ghost predicate RowIs(log: seq<Rec>, vs: seq<M.Version>, rids: seq<RecordId>, read: Reader, n: nat)
    requires n < |vs| && n < |rids|
  {
    && Row(log, rids[n]).Some?
    && IsVersion(vs[n], Row(log, rids[n]).value, rids, read)
    && PrevBorn(Row(log, rids[n]).value, rids[..n])
  }

  ghost predicate Same(log: seq<Rec>, vs: seq<M.Version>, rids: seq<RecordId>, read: Reader) {
    && |vs| == |rids| && Distinct(rids)
    && (forall rid :: Row(log, rid).Some? <==> rid in rids)
    && (forall n :: 0 <= n < |vs| ==> RowIs(log, vs, rids, read, n))
  }

  lemma Untouched(log: seq<Rec>, r: Rec, rid: RecordId)
    requires StoreHistory(log) && StoreRecOk(log, r) && StoreHistory(log + [r])
    requires !IsInsert(r, rid) && !IsStamp(r, rid)
    ensures Row(log + [r], rid) == Row(log, rid)
  {
    if !r.payload.FullPageImage? || InHeap(log, rid.page) {
      if InHeap(log, rid.page) { RowStep(log, r, rid); } else { S.RowsFrame(log, r, rid); }
    } else {
      InHeapStep(log, r, rid.page);
      if Row(log, rid).Some? { S.RowInHeap(log, rid); }
      if Row(log + [r], rid).Some? { S.RowInHeap(log + [r], rid); }
    }
  }

  lemma OtherSame(log: seq<Rec>, r: Rec, vs: seq<M.Version>, rids: seq<RecordId>, read: Reader)
    requires StoreHistory(log) && StoreRecOk(log, r) && StoreHistory(log + [r]) && Same(log, vs, rids, read)
    requires !r.payload.Insert? && !r.payload.Update? && !r.payload.Delete?
    ensures Same(log + [r], vs, rids, read)
  {
    forall rid ensures Row(log + [r], rid) == Row(log, rid) {
      Untouched(log, r, rid);
    }
    forall n | 0 <= n < |vs| ensures RowIs(log + [r], vs, rids, read, n) {
      assert RowIs(log, vs, rids, read, n);
    }
  }

  lemma NamedKept(rids: seq<RecordId>, bytes: seq<byte>, more: RecordId, n: nat)
    requires n <= |rids| && PrevBorn(bytes, rids[..n])
    ensures Named(rids + [more], DecodeHeader(bytes).value.prev) == Named(rids, DecodeHeader(bytes).value.prev)
    ensures n < |rids| ==> PrevBorn(bytes, (rids + [more])[..n])
  {
    assert (rids + [more])[..n] == rids[..n];
    if DecodeHeader(bytes).value.prev.Some? {
      var rid := DecodeHeader(bytes).value.prev.value;
      assert rid in rids[..n];
      NameKept(rids, rid, more);
    }
  }

  /** A row added with its version keeps them alike. */
  lemma AddedSame(log: seq<Rec>, log': seq<Rec>, vs: seq<M.Version>, rids: seq<RecordId>, read: Reader, v: M.Version,
                  more: RecordId, after: seq<byte>)
    requires Same(log, vs, rids, read) && more !in rids
    requires Row(log', more) == Some(after) && forall q :: q != more ==> Row(log', q) == Row(log, q)
    requires PrevBorn(after, rids) && IsVersion(v, after, rids, read)
    ensures Same(log', vs + [v], rids + [more], read)
  {
    hide Row, Name, DecodeHeader;
    var vs', rids' := vs + [v], rids + [more];
    forall n | 0 <= n < |vs'| ensures RowIs(log', vs', rids', read, n) {
      if n < |vs| {
        assert RowIs(log, vs, rids, read, n);
        NamedKept(rids, Row(log, rids[n]).value, more, n);
      } else {
        assert rids[..|rids|] == rids == rids'[..n];
        NamedKept(rids, after, more, n);
      }
    }
  }

  lemma InsertSame(log: seq<Rec>, r: Rec, vs: seq<M.Version>, rids: seq<RecordId>, read: Reader)
    requires StoreHistory(log) && StoreRecOk(log, r) && StoreHistory(log + [r]) && Same(log, vs, rids, read)
    requires r.payload.Insert?
    ensures var more := RecordId(r.payload.page, r.payload.slot);
      var v := M.Version(r.txn, NO_TXN, Named(rids, DecodeHeader(r.payload.after).value.prev),
                         read(r.payload.after[HEADER_SIZE..]));
      Same(log + [r], vs + [v], rids + [more], read)
  {
    hide Row, HeapBody, StampBytes, FromLe, Decode6, RowIs;
    var more, after := RecordId(r.payload.page, r.payload.slot), r.payload.after;
    var v := M.Version(r.txn, NO_TXN, Named(rids, DecodeHeader(after).value.prev), read(after[HEADER_SIZE..]));
    assert IsInsert(r, more) && InHeap(log, more.page);
    RowStep(log, r, more);
    assert PrevBorn(after, rids);
    forall q | q != more ensures Row(log + [r], q) == Row(log, q) {
      Untouched(log, r, q);
    }
    AddedSame(log, log + [r], vs, rids, read, v, more, after);
  }

  /** Setting `xmax` in one row and in its version keeps them alike. */
  lemma RestampedSame(log: seq<Rec>, log': seq<Rec>, vs: seq<M.Version>, rids: seq<RecordId>, read: Reader, n: nat,
                      t: TxnId)
    requires Same(log, vs, rids, read) && n < |vs| && t < TWO64
    requires |Row(log, rids[n]).value| >= HEADER_SIZE
    requires Row(log', rids[n]) == Some(StampBytes(Row(log, rids[n]).value, t))
    requires forall q :: q != rids[n] ==> Row(log', q) == Row(log, q)
    ensures Same(log', vs[n := vs[n].(xmax := t)], rids, read)
  {
    hide Row, Name, StampBytes, DecodeHeader;
    StampIsXmax(Row(log, rids[n]).value, t);
    var vs' := vs[n := vs[n].(xmax := t)];
    forall m | 0 <= m < |vs'| ensures RowIs(log', vs', rids, read, m) {
      assert RowIs(log, vs, rids, read, m);
    }
  }

  lemma StampSame(log: seq<Rec>, r: Rec, vs: seq<M.Version>, rids: seq<RecordId>, read: Reader, n: nat)
    requires StoreHistory(log) && StoreRecOk(log, r) && StoreHistory(log + [r]) && Same(log, vs, rids, read)
    requires (r.payload.Update? || r.payload.Delete?) && n == Name(rids, RecordId(r.payload.page, r.payload.slot))
    ensures n < |vs| && Same(log + [r], vs[n := vs[n].(xmax := r.txn)], rids, read)
  {
    hide Row, HeapBody, StampBytes, DecodeHeader;
    var rid := RecordId(r.payload.page, r.payload.slot);
    assert IsStamp(r, rid) && InHeap(log, rid.page);
    RowStep(log, r, rid);
    assert rid in rids;
    forall q | q != rid ensures Row(log + [r], q) == Row(log, q) {
      Untouched(log, r, q);
    }
    hide StoreHistory, InHeap;
    RestampedSame(log, log + [r], vs, rids, read, n, r.txn);
  }

  lemma SameStep(pre: seq<Rec>, r: Rec, read: Reader)
    requires StoreHistory(pre) && StoreRecOk(pre, r) && StoreHistory(pre + [r])
    requires Same(pre, M.Fold(Versions(pre, read)), Born(pre), read)
    ensures Same(pre + [r], M.Fold(Versions(pre + [r], read)), Born(pre + [r]), read)
  {
    hide Same, Born, Versions, StoreHistory, M.Fold, Row, Name;
    var was, rids, now := Versions(pre, read), Born(pre), Meaning(Born(pre), r, read);
    var vs := M.Fold(was);
    Step(pre, r, read);
    if r.payload.Insert? {
      M.FoldAppend(was, now[0]);
      InsertSame(pre, r, vs, rids, read);
    } else if r.payload.Update? || r.payload.Delete? {
      M.FoldAppend(was, now[0]);
      StampSame(pre, r, vs, rids, read, Name(rids, RecordId(r.payload.page, r.payload.slot)));
    } else {
      OtherSame(pre, r, vs, rids, read);
      if now == [] {
        assert was + now == was;
      } else {
        M.FoldAppend(was, now[0]);
      }
    }
  }

  /** The rows on the pages are the versions the log folds to: the same ones, in birth order, saying the same. */
  lemma {:induction false} RowsAreVersions(log: seq<Rec>, read: Reader)
    requires StoreHistory(log)
    ensures Same(log, M.Fold(Versions(log, read)), Born(log), read)
  {
    if log == [] {
      forall rid ensures Row(log, rid).None? {
        if Row(log, rid).Some? { S.RowInHeap(log, rid); }
      }
    } else {
      var k := |log| - 1;
      assert log == log[..k] + [log[k]];
      StorePrefix(log, k);
      RowsAreVersions(log[..k], read);
      SameStep(log[..k], log[k], read);
    }
  }

  /** Both logs name the same transactions as ended, and in the same way. */
  lemma {:induction false} EndsAreEnds(log: seq<Rec>, read: Reader, t: TxnId)
    ensures M.Commit(t) in Versions(log, read) <==> R.HasCommit(log, t)
    ensures M.Abort(t) in Versions(log, read) <==> R.HasAbort(log, t)
  {
    if log != [] {
      hide R.HasCommit, R.HasAbort, Versions;
      var pre, r := log[..|log| - 1], log[|log| - 1];
      EndsAreEnds(pre, read, t);
      EndStep(pre, r, read, t);
      assert log == pre + [r];
    } else {
      assert !R.HasCommit(log, t) && !R.HasAbort(log, t);
    }
  }

  lemma EndStep(pre: seq<Rec>, r: Rec, read: Reader, t: TxnId)
    requires M.Commit(t) in Versions(pre, read) <==> R.HasCommit(pre, t)
    requires M.Abort(t) in Versions(pre, read) <==> R.HasAbort(pre, t)
    ensures M.Commit(t) in Versions(pre + [r], read) <==> R.HasCommit(pre + [r], t)
    ensures M.Abort(t) in Versions(pre + [r], read) <==> R.HasAbort(pre + [r], t)
  {
    hide R.HasCommit, R.HasAbort, R.HasData, R.MaxTxn, Name, DecodeHeader, Versions, Born;
    Step(pre, r, read);
    R.NoteTxns(pre, r);
  }

  // ----- What the version machine asks of a log, on the rows -----

  function Head(log: seq<Rec>, rid: RecordId): Option<Header> {
    match Row(log, rid)
    case None => None
    case Some(bytes) => DecodeHeader(bytes)
  }

  /** The creator of the row has stamped the row it replaces. */
  ghost predicate LinkedRow(log: seq<Rec>, rid: RecordId)
    requires Head(log, rid).Some?
  {
    var h := Head(log, rid).value;
    h.prev.Some? ==> Head(log, h.prev.value).Some? && Head(log, h.prev.value).value.xmax == h.xmin
  }

  ghost predicate Replaces(log: seq<Rec>, rid: RecordId, was: RecordId) {
    Head(log, rid).Some? && Head(log, rid).value.prev == Some(was)
  }

  /** `t` may build on a row that it created itself or whose creator has a Commit record. */
  ghost predicate MayBuildOn(log: seq<Rec>, t: TxnId, rid: RecordId)
    requires Head(log, rid).Some?
  {
    Head(log, rid).value.xmin == t || R.HasCommit(log, Head(log, rid).value.xmin)
  }

  ghost predicate InsertChained(log: seq<Rec>, t: TxnId, was: RecordId) {
    && Head(log, was).Some? && Head(log, was).value.xmax == NO_TXN
    && MayBuildOn(log, t, was) && LinkedRow(log, was)
    && forall rid :: Replaces(log, rid, was) ==> Head(log, rid).value.xmin != t
  }

  ghost predicate StampChained(log: seq<Rec>, t: TxnId, was: RecordId) {
    && Head(log, was).Some? && MayBuildOn(log, t, was)
    && forall a, b :: Replaces(log, a, was) && Replaces(log, b, was) && Head(log, a).value.xmin == t ==>
         Name(Born(log), b) <= Name(Born(log), a)
  }

  ghost predicate CommitChained(log: seq<Rec>, t: TxnId) {
    forall rid :: Head(log, rid).Some? && Head(log, rid).value.xmin == t ==> LinkedRow(log, rid)
  }

  /** What a record asks of the rows before it, besides what the store itself checks. */
  ghost predicate Chained(pre: seq<Rec>, r: Rec) {
    match r.payload
    case Insert(_, _, after) =>
      |after| >= HEADER_SIZE && DecodeHeader(after).value.prev.Some? ==>
        InsertChained(pre, r.txn, DecodeHeader(after).value.prev.value)
    case Update(p, slot, _, _) => StampChained(pre, r.txn, RecordId(p, slot))
    case Delete(p, slot, _) => StampChained(pre, r.txn, RecordId(p, slot))
    case Commit => CommitChained(pre, r.txn)
    case _ => true
  }

  ghost predicate ChainedLog(log: seq<Rec>) {
    forall j :: 0 <= j < |log| ==> Chained(log[..j], log[j])
  }

  /** A row's header, field by field, in its version. */
  lemma HeadIs(log: seq<Rec>, vs: seq<M.Version>, rids: seq<RecordId>, read: Reader, n: nat)
    requires Same(log, vs, rids, read) && n < |vs|
    ensures Head(log, rids[n]).Some?
    ensures vs[n].xmin == Head(log, rids[n]).value.xmin && vs[n].xmax == Head(log, rids[n]).value.xmax
    ensures vs[n].prev == Named(rids, Head(log, rids[n]).value.prev)
    ensures Head(log, rids[n]).value.prev.Some? ==>
      Head(log, rids[n]).value.prev.value in rids && Name(rids, Head(log, rids[n]).value.prev.value) < n
  {
    hide Row, FromLe, Decode6;
    assert RowIs(log, vs, rids, read, n);
    var prev := Head(log, rids[n]).value.prev;
    if prev.Some? {
      var k := Name(rids[..n], prev.value);
      assert rids[k] == prev.value;
      NameAt(rids, k);
    }
  }

  lemma HeadHas(log: seq<Rec>, vs: seq<M.Version>, rids: seq<RecordId>, read: Reader, rid: RecordId)
    requires Same(log, vs, rids, read) && Head(log, rid).Some?
    ensures Name(rids, rid) < |vs| && rids[Name(rids, rid)] == rid
  {
  }

  lemma LinkedIff(log: seq<Rec>, vs: seq<M.Version>, rids: seq<RecordId>, read: Reader, n: nat)
    requires Same(log, vs, rids, read) && n < |vs|
    ensures Head(log, rids[n]).Some? && (M.Linked(vs, n) <==> LinkedRow(log, rids[n]))
  {
    hide Head;
    HeadIs(log, vs, rids, read, n);
    var prev := Head(log, rids[n]).value.prev;
    if prev.Some? {
      HeadIs(log, vs, rids, read, Name(rids, prev.value));
    }
  }

  lemma ReplacesIff(log: seq<Rec>, vs: seq<M.Version>, rids: seq<RecordId>, read: Reader, n: nat, was: RecordId)
    requires Same(log, vs, rids, read) && n < |vs| && was in rids
    ensures Head(log, rids[n]).Some? && (vs[n].prev == Some(Name(rids, was)) <==> Replaces(log, rids[n], was))
  {
    hide Head;
    HeadIs(log, vs, rids, read, n);
  }

  lemma MayBuildIff(log: seq<Rec>, vs: seq<M.Version>, read: Reader, t: TxnId, n: nat)
    requires Same(log, vs, Born(log), read) && n < |vs|
    ensures Head(log, Born(log)[n]).Some?
    ensures M.MayUse(Versions(log, read), t, vs[n].xmin) <==> MayBuildOn(log, t, Born(log)[n])
  {
    hide Head, Versions, Same;
    HeadIs(log, vs, Born(log), read, n);
    EndsAreEnds(log, read, vs[n].xmin);
  }

  lemma InsertIff(log: seq<Rec>, vs: seq<M.Version>, read: Reader, t: TxnId, was: RecordId, n: nat)
    requires Same(log, vs, Born(log), read) && n == Name(Born(log), was) && n < |vs|
    ensures InsertChained(log, t, was) <==>
      && vs[n].xmax == NO_TXN && M.MayUse(Versions(log, read), t, vs[n].xmin) && M.Linked(vs, n)
      && forall m :: 0 <= m < |vs| && vs[m].prev == Some(n) ==> vs[m].xmin != t
  {
    hide Head, Versions, Name, LinkedRow, M.Linked, M.MayUse, MayBuildOn;
    var rids := Born(log);
    HeadIs(log, vs, rids, read, n);
    LinkedIff(log, vs, rids, read, n);
    MayBuildIff(log, vs, read, t, n);
    if forall m :: 0 <= m < |vs| && vs[m].prev == Some(n) ==> vs[m].xmin != t {
      forall rid | Replaces(log, rid, was) ensures Head(log, rid).value.xmin != t {
        ReplacerNamed(log, vs, rids, read, rid, was);
      }
    }
    if forall rid :: Replaces(log, rid, was) ==> Head(log, rid).value.xmin != t {
      forall m | 0 <= m < |vs| && vs[m].prev == Some(n) ensures vs[m].xmin != t {
        HeadIs(log, vs, rids, read, m);
        ReplacesIff(log, vs, rids, read, m, was);
      }
    }
  }

  /** A row that replaces another has a birth number, and its version replaces the other's. */
  lemma ReplacerNamed(log: seq<Rec>, vs: seq<M.Version>, rids: seq<RecordId>, read: Reader, rid: RecordId,
                      was: RecordId)
    requires Same(log, vs, rids, read) && Replaces(log, rid, was) && was in rids
    ensures var m := Name(rids, rid);
      m < |vs| && rids[m] == rid && vs[m].prev == Some(Name(rids, was)) && vs[m].xmin == Head(log, rid).value.xmin
  {
    hide Same, Name;
    HeadHas(log, vs, rids, read, rid);
    HeadIs(log, vs, rids, read, Name(rids, rid));
  }

  lemma StampIff(log: seq<Rec>, vs: seq<M.Version>, read: Reader, t: TxnId, was: RecordId, n: nat)
    requires Same(log, vs, Born(log), read) && n == Name(Born(log), was) && n < |vs|
    ensures StampChained(log, t, was) <==>
      M.MayUse(Versions(log, read), t, vs[n].xmin) && M.NewestOf(vs, n, t)
  {
    hide Head, Versions, Name, M.MayUse, MayBuildOn;
    var rids := Born(log);
    HeadIs(log, vs, rids, read, n);
    MayBuildIff(log, vs, read, t, n);
    if M.NewestOf(vs, n, t) {
      forall a, b | Replaces(log, a, was) && Replaces(log, b, was) && Head(log, a).value.xmin == t
        ensures Name(rids, b) <= Name(rids, a)
      {
        ReplacerNamed(log, vs, rids, read, a, was);
        ReplacerNamed(log, vs, rids, read, b, was);
      }
    }
    if StampChained(log, t, was) {
      forall a, b | 0 <= a < |vs| && 0 <= b < |vs| && vs[a].prev == Some(n) == vs[b].prev && vs[a].xmin == t
        ensures b <= a
      {
        HeadIs(log, vs, rids, read, a);
        ReplacesIff(log, vs, rids, read, a, was);
        ReplacesIff(log, vs, rids, read, b, was);
        NameAt(rids, a);
        NameAt(rids, b);
      }
    }
  }

  lemma CommitIff(log: seq<Rec>, vs: seq<M.Version>, rids: seq<RecordId>, read: Reader, t: TxnId)
    requires Same(log, vs, rids, read)
    ensures CommitChained(log, t) <==> forall n :: 0 <= n < |vs| && vs[n].xmin == t ==> M.Linked(vs, n)
  {
    hide Head, Name, M.Linked, LinkedRow;
    forall n | 0 <= n < |vs|
      ensures Head(log, rids[n]).Some? && Head(log, rids[n]).value.xmin == vs[n].xmin
      ensures M.Linked(vs, n) <==> LinkedRow(log, rids[n])
    {
      HeadIs(log, vs, rids, read, n);
      LinkedIff(log, vs, rids, read, n);
    }
    forall rid | Head(log, rid).Some? ensures Name(rids, rid) < |vs| && rids[Name(rids, rid)] == rid {
      HeadHas(log, vs, rids, read, rid);
    }
  }

  /** A record the store appends is one the version machine could append just when the rows are chained so. */
  lemma RecordIff(pre: seq<Rec>, r: Rec, read: Reader)
    requires StoreHistory(pre) && StoreRecOk(pre, r)
    ensures var now := Meaning(Born(pre), r, read);
      |now| <= 1 && (Chained(pre, r) <==> forall m :: m in now ==> M.RecordOk(Versions(pre, read), m))
  {
    hide Versions, Born, Same, StoreHistory, InsertChained, StampChained, CommitChained, M.NewestOf, M.Linked, M.MayUse;
    var rids, vs, now := Born(pre), M.Fold(Versions(pre, read)), Meaning(Born(pre), r, read);
    RowsAreVersions(pre, read);
    if now != [] {
      assert now == [now[0]];
      EndsAreEnds(pre, read, r.txn);
      assert r.txn >= FIRST_USER_TXN && !M.Ended(Versions(pre, read), r.txn) && now[0].txn == r.txn;
      if r.payload.Insert? {
        InsertRecordIff(pre, r, vs, read);
      } else if r.payload.Update? || r.payload.Delete? {
        StampRecordIff(pre, r, vs, read);
      } else if r.payload.Commit? {
        CommitIff(pre, vs, rids, read, r.txn);
        assert Chained(pre, r) <==> M.RecordOk(Versions(pre, read), now[0]);
      } else {
        assert Chained(pre, r) && M.RecordOk(Versions(pre, read), now[0]);
      }
      assert now[0] in now && forall m :: m in now ==> m == now[0];
    } else {
      assert Chained(pre, r);
    }
  }

  lemma InsertRecordIff(pre: seq<Rec>, r: Rec, vs: seq<M.Version>, read: Reader)
    requires StoreHistory(pre) && StoreRecOk(pre, r) && r.payload.Insert? && |r.payload.after| >= HEADER_SIZE
    requires vs == M.Fold(Versions(pre, read)) && Same(pre, vs, Born(pre), read)
    requires r.txn >= FIRST_USER_TXN && !M.Ended(Versions(pre, read), r.txn)
    ensures Chained(pre, r) <==> M.RecordOk(Versions(pre, read), Meaning(Born(pre), r, read)[0])
  {
    hide Versions, Born, StoreHistory, InsertChained, M.Linked, M.MayUse, RowIs, M.Fold;
    var prev := DecodeHeader(r.payload.after).value.prev;
    if prev.Some? {
      assert prev.value in Born(pre);
      InsertIff(pre, vs, read, r.txn, prev.value, Name(Born(pre), prev.value));
    }
  }

  lemma StampRecordIff(pre: seq<Rec>, r: Rec, vs: seq<M.Version>, read: Reader)
    requires StoreHistory(pre) && StoreRecOk(pre, r) && (r.payload.Update? || r.payload.Delete?)
    requires vs == M.Fold(Versions(pre, read)) && Same(pre, vs, Born(pre), read)
    requires r.txn >= FIRST_USER_TXN && !M.Ended(Versions(pre, read), r.txn)
    ensures Chained(pre, r) <==> M.RecordOk(Versions(pre, read), Meaning(Born(pre), r, read)[0])
  {
    hide Versions, Born, StoreHistory, StampChained, M.NewestOf, M.MayUse, RowIs, M.Fold;
    var rid := RecordId(r.payload.page, r.payload.slot);
    assert rid in Born(pre);
    var n := Name(Born(pre), rid);
    HeadIs(pre, vs, Born(pre), read, n);
    StampIff(pre, vs, read, r.txn, rid, n);
  }

  lemma MeaningAppends(log: seq<M.LogRecord>, now: seq<M.LogRecord>)
    requires |now| <= 1
    ensures M.LogOk(log + now) <==> M.LogOk(log) && forall m :: m in now ==> M.RecordOk(log, m)
  {
    hide M.RecordOk;
    if now == [] {
      assert log + now == log;
    } else {
      assert now == [now[0]];
      if M.LogOk(log + now) {
        M.LogOkPrefix(log + now, |log|);
        assert (log + now)[..|log|] == log && (log + now)[|log|] == now[0];
      } else if M.RecordOk(log, now[0]) && M.LogOk(log) {
        M.LogOkAppend(log, now[0]);
      }
    }
  }

  lemma ChainedStep(log: seq<Rec>, r: Rec)
    ensures ChainedLog(log + [r]) <==> ChainedLog(log) && Chained(log, r)
  {
    hide Chained;
    var more := log + [r];
    assert more[..|log|] == log && more[|log|] == r;
    forall j | 0 <= j < |log| ensures more[..j] == log[..j] && more[j] == log[j] {
    }
    if ChainedLog(more) {
      forall j | 0 <= j < |log| ensures Chained(log[..j], log[j]) {
        assert Chained(more[..j], more[j]);
      }
    }
  }

  /** A store's log is a log of the version machine if and only if every record found the rows chained. */
  lemma {:induction false} ChainedIff(log: seq<Rec>, read: Reader)
    requires StoreHistory(log)
    ensures M.LogOk(Versions(log, read)) <==> ChainedLog(log)
  {
    if log != [] {
      hide M.LogOk, M.RecordOk, Chained, ChainedLog, StoreRecOk, Meaning, Versions, Born;
      var k := |log| - 1;
      var pre, r := log[..k], log[k];
      StorePrefix(log, k);
      ChainedIff(pre, read);
      RecordIff(pre, r, read);
      Step(pre, r, read);
      MeaningAppends(Versions(pre, read), Meaning(Born(pre), r, read));
      ChainedStep(pre, r);
      assert log == pre + [r];
    }
  }

  /** What a crash leaves of the log of any run of the version machine is chained. */
  lemma RunsAreChained(steps: seq<M.Step>, s: M.State, keep: nat, log: seq<Rec>, read: Reader)
    requires M.Run(steps, s) && keep <= |s.log| && StoreHistory(log) && Versions(log, read) == s.log[..keep]
    ensures ChainedLog(log)
  {
    hide M.Run, M.LogOk, Versions, StoreHistory, ChainedLog;
    M.RunLogOk(steps, s, keep);
    ChainedIff(log, read);
  }

  // ----- After a crash -----

  /** A row is live just when the version it is passes for visible by the Commit records. */
  lemma LiveIff(log: seq<Rec>, vs: seq<M.Version>, read: Reader, h: nat, n: nat, d: seq<byte>)
    requires StoreHistory(log) && M.LogOk(Versions(log, read)) && Same(log, vs, Born(log), read) && n < |vs|
    requires Row(log, Born(log)[n]).Some? && |Row(log, Born(log)[n]).value| >= HEADER_SIZE
    ensures var rid := Born(log)[n];
      LiveRow(log, h, rid, d) <==>
        && rid.page in R.HeapPages(log, h) && d == Row(log, rid).value[HEADER_SIZE..]
        && M.Commit(vs[n].xmin) in Versions(log, read) && M.Commit(vs[n].xmax) !in Versions(log, read)
  {
    hide Row, Versions, Born, M.LogOk, R.HasCommit, R.HeapPages, InsertedBy, StampedBy, FromLe, Decode6;
    var rid := Born(log)[n];
    assert RowIs(log, vs, Born(log), read, n);
    hide Same, RowIs;
    S.RowInHeap(log, rid);
    RowMeaning(log, rid);
    EndsAreEnds(log, read, vs[n].xmin);
    EndsAreEnds(log, read, vs[n].xmax);
    M.LogOkWritten(Versions(log, read));
    M.UserTxns(Versions(log, read));
  }

  /**
   * After recovery from any crash state, the rows a scan returns are exactly those of the heap whose
   * versions a fresh transaction of the recovered version machine sees.
   */
  lemma RecoveredRows(log: seq<Rec>, disk: Disk, disk': Disk, report: R.Report, snap: Snapshot, commits: CommitLog,
                      h: nat, read: Reader, mode: M.Mode, n: nat, d: seq<byte>)
    requires StoreHistory(log) && CrashState(log, disk) && R.RedoneTo(log, disk, disk')
    requires R.ReportOk(log, report) && FreshAfter(report, snap, commits)
    requires ChainedLog(log) && n < |Born(log)|
    ensures var r := M.Begun(M.Recovered(Versions(log, read)), mode);
      && |r.vs| == |Born(log)| && Row(log, Born(log)[n]).Some? && |Row(log, Born(log)[n]).value| >= HEADER_SIZE
      && (Found(Born(log)[n], d) in ScanRows(R.HeapPages(log, h), disk', snap, commits) <==>
            && Born(log)[n].page in R.HeapPages(log, h) && d == Row(log, Born(log)[n]).value[HEADER_SIZE..]
            && M.Sees(r, r.next - 1, n))
  {
    var V := Versions(log, read);
    hide StoreHistory, CrashState, R.RedoneTo, R.ReportOk, FreshAfter, ChainedLog, Versions, Born, Row, LiveRow,
      ScanRows, R.HeapPages, M.LogOk, M.Sees, M.Begun, M.Recovered, M.Fold;
    RowsAreVersions(log, read);
    ChainedIff(log, read);
    assert RowIs(log, M.Fold(V), Born(log), read, n);
    RecoveredScan(log, disk, disk', report, snap, commits, h);
    LiveIff(log, M.Fold(V), read, h, n, d);
    M.LogOkWritten(V);
    M.BegunSees(V, mode, n);
  }

  /** And of the rows of one chain, a scan returns at most one. */
  lemma RecoveredOnePerChain(log: seq<Rec>, disk: Disk, disk': Disk, report: R.Report, snap: Snapshot,
                             commits: CommitLog, h: nat, read: Reader, a: nat, b: nat, d: seq<byte>, e: seq<byte>)
    requires StoreHistory(log) && CrashState(log, disk) && R.RedoneTo(log, disk, disk')
    requires R.ReportOk(log, report) && FreshAfter(report, snap, commits) && ChainedLog(log)
    requires a < |Born(log)| && b < |Born(log)| && |M.Fold(Versions(log, read))| == |Born(log)|
    requires M.Root(M.Fold(Versions(log, read)), a) == M.Root(M.Fold(Versions(log, read)), b)
    ensures var rows := ScanRows(R.HeapPages(log, h), disk', snap, commits);
      Found(Born(log)[a], d) in rows && Found(Born(log)[b], e) in rows ==> a == b && d == e
  {
    hide StoreHistory, CrashState, R.RedoneTo, R.ReportOk, FreshAfter, ChainedLog, Versions, Born, Row,
      ScanRows, R.HeapPages, M.LogOk, M.Sees, M.Begun, M.Recovered, M.Fold, M.Root;
    RecoveredRows(log, disk, disk', report, snap, commits, h, read, M.ReadOnly, a, d);
    RecoveredRows(log, disk, disk', report, snap, commits, h, read, M.ReadOnly, b, e);
    ChainedIff(log, read);
    M.BegunSeesOne(Versions(log, read), M.ReadOnly, a, b);
  }
}
