/**
 * The bank-transfer workload: accounts opened by one committed transaction, then any interleaving
 * of transfers, readers, aborts and crashes, overlapping begins included. The total every snapshot sees
 * never changes. What makes it so is that a transfer knows its two account versions before it begins: their
 * creators have committed and left by then.
 */
module Bank {
  import opened Visibility
  import opened Mvcc
  import opened Options

  /** A transfer of `amt` from version `i` to version `j`; `done` counts its finished updates. */
  datatype Prog = Prog(i: nat, j: nat, amt: int, read: Option<(int, int)>, done: nat)

  datatype BankState = BankState(db: State, progs: map<TxnId, Prog>)

  datatype BankStep =
    | Db(step: Step)
    | Pick(i: nat, j: nat, amt: int)
    | Start(t: TxnId)
    | ReadBalances(txn: TxnId)

  const OPENER: TxnId := FIRST_USER_TXN

  function OpenInserts(balances: seq<int>): seq<LogRecord> {
    seq(|balances|, k requires 0 <= k < |balances| => Insert(OPENER, None, balances[k]))
  }

  function OpenLog(balances: seq<int>): seq<LogRecord> {
    OpenInserts(balances) + [Commit(OPENER)]
  }

  /** The bank just after the opening transaction has committed. */
  function Opened(balances: seq<int>): BankState {
    BankState(Recovered(OpenLog(balances)), map[])
  }

  predicate Published(s: State, i: nat) {
    i < |s.vs| && s.vs[i].xmin !in s.txns && StatusOf(s.commits, s.vs[i].xmin) == Committed
  }

  predicate Allowed(b: BankState, step: BankStep) {
    match step
    // The account mutexes are held, so both versions are published: their creators' commits have returned.
    case Pick(i, j, _) => Published(b.db, i) && Published(b.db, j)
    case Start(t) => t in b.progs && t in b.db.pending
    case ReadBalances(t) =>
      && t in b.progs && t in b.db.txns && b.progs[t].read.None? && b.progs[t].done == 0
      && b.db.txns[t].pc.Idle?
      && b.progs[t].i < |b.db.vs| && b.progs[t].j < |b.db.vs|
      && ReadFrom(b.db.vs, b.progs[t].i, b.db.txns[t].snap, b.db.commits).Some?
      && ReadFrom(b.db.vs, b.progs[t].j, b.db.txns[t].snap, b.db.commits).Some?
    case Db(db) =>
      && Enabled(b.db, db)
      && match db
         case Register(t, mode) => mode == ReadOnly && t !in b.progs
         case DoInsert(_, _) => false
         case Lock(t, i, op) =>
           && t in b.progs && b.progs[t].read.Some?
           && (var p := b.progs[t];
               || (p.done == 0 && i == p.i && op == Update(p.read.value.0 - p.amt))
               || (p.done == 1 && i == p.j && op == Update(p.read.value.1 + p.amt)))
         case LogEnd(t, commit) => t in b.progs && commit ==> b.progs[t].done == 2
         case _ => true
  }

  function Step1(b: BankState, step: BankStep): BankState
    requires Allowed(b, step)
  {
    match step
    // The first half of a transfer's `begin`, its versions known.
    case Pick(i, j, amt) => BankState(Do(b.db, Alloc), b.progs[b.db.next := Prog(i, j, amt, None, 0)])
    case Start(t) => b.(db := Do(b.db, Register(t, ReadWrite)))
    case ReadBalances(t) =>
      var p := b.progs[t];
      var x := ReadFrom(b.db.vs, p.i, b.db.txns[t].snap, b.db.commits).value;
      var y := ReadFrom(b.db.vs, p.j, b.db.txns[t].snap, b.db.commits).value;
      b.(progs := b.progs[t := p.(read := Some((b.db.vs[x].data, b.db.vs[y].data)))])
    case Db(db) =>
      var progs := match db
        case DoStamp(t) => if t in b.progs then b.progs[t := b.progs[t].(done := b.progs[t].done + 1)] else b.progs
        case Crash(_) => map[]
        case _ => b.progs;
      BankState(Do(b.db, db), progs)
  }

  /** `b` is reached from the opened bank by allowed steps. */
  ghost predicate BankRun(balances: seq<int>, steps: seq<BankStep>, b: BankState) {
    if steps == [] then b == Opened(balances)
    else
      var last := |steps| - 1;
      exists p :: BankRun(balances, steps[..last], p) && Allowed(p, steps[last]) && Step1(p, steps[last]) == b
  }

  // ----- Sums -----

  function Sum(xs: seq<int>): int {
    if xs == [] then 0 else Sum(xs[..|xs| - 1]) + xs[|xs| - 1]
  }

  /** The data of the versions of `g` among the first `n`, added up. */
  function SumData(vs: seq<Version>, g: set<nat>, n: nat): int
    requires n <= |vs|
  {
    if n == 0 then 0 else SumData(vs, g, n - 1) + if n - 1 in g then vs[n - 1].data else 0
  }

  /** How much version `n` adds over the version it replaces. */
  function Delta(vs: seq<Version>, n: nat): int
    requires n < |vs|
  {
    vs[n].data - if vs[n].prev.Some? && vs[n].prev.value < n then vs[vs[n].prev.value].data else 0
  }

  function SumDelta(vs: seq<Version>, g: set<nat>, n: nat): int
    requires n <= |vs|
  {
    if n == 0 then 0 else SumDelta(vs, g, n - 1) + if n - 1 in g then Delta(vs, n - 1) else 0
  }

  /** The net amount `t` has created so far. */
  function Net(vs: seq<Version>, t: TxnId): int {
    SumDelta(vs, set n: nat | n < |vs| && vs[n].xmin == t, |vs|)
  }

  /** What a scan by `t` adds up to. */
  function TotalSeen(s: State, t: TxnId): int
    requires t in s.txns
  {
    SumData(s.vs, set n: nat | n < |s.vs| && Sees(s, t, n), |s.vs|)
  }

  lemma {:induction false} SumDataExt(vs: seq<Version>, g: set<nat>, h: set<nat>, n: nat)
    requires n <= |vs| && forall i :: 0 <= i < n ==> (i in g <==> i in h)
    ensures SumData(vs, g, n) == SumData(vs, h, n)
  {
    if n > 0 { SumDataExt(vs, g, h, n - 1); }
  }

  lemma {:induction false} SumDataRemove(vs: seq<Version>, g: set<nat>, p: nat, n: nat)
    requires p < n <= |vs| && p in g
    ensures SumData(vs, g - {p}, n) == SumData(vs, g, n) - vs[p].data
  {
    if p == n - 1 {
      SumDataExt(vs, g - {p}, g, n - 1);
    } else {
      SumDataRemove(vs, g, p, n - 1);
    }
  }

  /** The members of `g` below `n` that no other member below `n` replaces. */
  ghost function Heads(vs: seq<Version>, g: set<nat>, n: nat): set<nat>
    requires n <= |vs|
  {
    set i: nat | i < n && i in g && !exists q :: q in g && 0 <= q < n && vs[q].prev == Some(i)
  }

  /** Along every chain the differences telescope, leaving the heads. */
  lemma {:induction false} Telescope(vs: seq<Version>, g: set<nat>, n: nat)
    requires Unforked(vs, g) && n <= |vs|
    ensures SumDelta(vs, g, n) == SumData(vs, Heads(vs, g, n), n)
  {
    if n > 0 {
      var k := n - 1;
      Telescope(vs, g, k);
      var was := Heads(vs, g, k);
      var now := Heads(vs, g, n);
      if k !in g {
        assert now == was;
      } else if vs[k].prev.None? {
        assert now == was + {k} by {
          assert forall i: nat :: i < n && i in g && i !in was ==> i == k || i !in now;
        }
        SumDataExt(vs, now, was, k);
      } else {
        var p := vs[k].prev.value;
        assert p in was;
        assert p !in now && k in now;
        assert forall i: nat :: i < k && i != p ==> (i in now <==> i in was);
        SumDataExt(vs, now, was - {p}, k);
        SumDataRemove(vs, was, p, k);
      }
    }
  }

  lemma {:induction false} SumDeltaUnion(vs: seq<Version>, g: set<nat>, h: set<nat>, n: nat)
    requires n <= |vs| && g !! h
    ensures SumDelta(vs, g + h, n) == SumDelta(vs, g, n) + SumDelta(vs, h, n)
  {
    if n > 0 { SumDeltaUnion(vs, g, h, n - 1); }
  }

  lemma {:induction false} SumDeltaEmpty(vs: seq<Version>, n: nat)
    requires n <= |vs|
    ensures SumDelta(vs, {}, n) == 0
  {
    if n > 0 { SumDeltaEmpty(vs, n - 1); }
  }

  ghost function CreatedBy(vs: seq<Version>, ts: set<TxnId>, bound: TxnId): set<nat> {
    set n: nat | n < |vs| && vs[n].xmin in ts && vs[n].xmin < bound
  }

  /** Adding up over versions is adding up over the transactions that created them. */
  lemma {:induction false} SumByTxn(vs: seq<Version>, ts: set<TxnId>, bound: TxnId)
    requires forall t :: t in ts && t != OPENER ==> Net(vs, t) == 0
    ensures SumDelta(vs, CreatedBy(vs, ts, bound), |vs|) ==
      if OPENER in ts && OPENER < bound then Net(vs, OPENER) else 0
  {
    if bound == 0 {
      assert CreatedBy(vs, ts, 0) == {};
      SumDeltaEmpty(vs, |vs|);
    } else {
      var t := bound - 1;
      SumByTxn(vs, ts, t);
      var own := set n: nat | n < |vs| && vs[n].xmin == t;
      if t in ts {
        assert CreatedBy(vs, ts, bound) == CreatedBy(vs, ts, t) + own;
        SumDeltaUnion(vs, CreatedBy(vs, ts, t), own, |vs|);
      } else {
        assert CreatedBy(vs, ts, bound) == CreatedBy(vs, ts, t);
      }
    }
  }

  // ----- What the workload adds to the log discipline -----

  /** Transfers make no new accounts, stamp only what they have replaced, and commit balanced. */
  ghost predicate BankRecordOk(pre: seq<LogRecord>, r: LogRecord) {
    var vs := Fold(pre);
    match r
    case Insert(t, prev, _) => t == OPENER || prev.Some?
    case Stamp(t, i, _) => exists n :: 0 <= n < |vs| && vs[n].prev == Some(i) && vs[n].xmin == t
    case Commit(t) => t == OPENER || Net(vs, t) == 0
    case Abort(_) => true
  }

  ghost predicate BankRecordsOk(log: seq<LogRecord>) {
    forall j :: 0 <= j < |log| ==> BankRecordOk(log[..j], log[j])
  }

  ghost predicate BankLogOk(balances: seq<int>, log: seq<LogRecord>) {
    OpenLog(balances) <= log && BankRecordsOk(log)
  }

  /** The net amount of a transfer, by how far it has got. */
  function Owed(p: Prog, pc: Pc): int {
    if p.done == 0 then (if pc.Inserted? then -p.amt else 0)
    else if p.done == 1 then (if pc.Inserted? then 0 else -p.amt)
    else 0
  }

  /** While an account version is visible to the transfer, its data is the balance it read. */
  ghost predicate ReadsOk(s: State, t: TxnId, p: Prog)
    requires t in s.txns
  {
    p.read.Some? ==>
      && p.i < |s.vs| && p.j < |s.vs|
      && (p.done == 0 && Sees(s, t, p.i) ==> s.vs[p.i].data == p.read.value.0)
      && (p.done <= 1 && Sees(s, t, p.j) ==> s.vs[p.j].data == p.read.value.1)
  }

  predicate PcOk(p: Prog, pc: Pc) {
    && (p.read.None? ==> p.done == 0 && (pc.Idle? || pc.Ending?))
    && (pc.Locked? || pc.Validated? ==>
          && p.read.Some?
          && ((p.done == 0 && pc.target == p.i && pc.op == Update(p.read.value.0 - p.amt))
              || (p.done == 1 && pc.target == p.j && pc.op == Update(p.read.value.1 + p.amt))))
    && (pc.Inserted? ==> p.done <= 1)
  }

  ghost predicate ProgOk(b: BankState, t: TxnId)
    requires t in b.progs && t in b.db.txns
  {
    var p, pc := b.progs[t], b.db.txns[t].pc;
    && ReadsOk(b.db, t, p)
    && PcOk(p, pc)
    && (!pc.Ending? ==> Net(b.db.vs, t) == Owed(p, pc))
  }

  /** `c` had committed and left when `t` got its id. */
  ghost predicate Earlier(s: State, t: TxnId, c: TxnId) {
    && FIRST_USER_TXN <= c < t && c !in s.txns && c !in s.pending && StatusOf(s.commits, c) == Committed
    && forall u :: u in s.txns && t < s.txns[u].snap.xmax ==> Over(s.txns[u].snap, c)
  }

  ghost predicate PickOk(b: BankState, t: TxnId)
    requires t in b.progs
  {
    var p := b.progs[t];
    && t < b.db.next && p.i < |b.db.vs| && p.j < |b.db.vs|
    && Earlier(b.db, t, b.db.vs[p.i].xmin) && Earlier(b.db, t, b.db.vs[p.j].xmin)
    && (t in b.db.pending ==> p.read.None? && p.done == 0)
  }

  ghost predicate BankInv(balances: seq<int>, b: BankState) {
    && Inv(b.db) && Closed(b.db)
    && BankLogOk(balances, b.db.log)
    && b.db.durable >= |OpenLog(balances)|
    && OPENER < b.db.next && OPENER !in b.db.txns && OPENER !in b.db.pending
    && (forall t :: t in b.db.txns ==> Over(b.db.txns[t].snap, OPENER))
    && (forall t :: t in b.progs ==> PickOk(b, t))
    && (forall t :: t in b.db.txns && t !in b.progs ==> b.db.txns[t].mode == ReadOnly)
    && (forall t :: t in b.progs && t in b.db.txns ==> ProgOk(b, t))
  }

  lemma {:induction false} SumDeltaPrefix(vs: seq<Version>, ws: seq<Version>, g: set<nat>, h: set<nat>, n: nat)
    requires n <= |vs| && n <= |ws|
    requires forall i :: 0 <= i < n ==> (i in g <==> i in h) && vs[i].data == ws[i].data && vs[i].prev == ws[i].prev
    ensures SumDelta(vs, g, n) == SumDelta(ws, h, n)
  {
    if n > 0 { SumDeltaPrefix(vs, ws, g, h, n - 1); }
  }

  /** A record of anybody else leaves the net amount of `t` as it was; an own insert adds its delta. */
  lemma NetApply(vs: seq<Version>, r: LogRecord, t: TxnId)
    ensures Net(Apply(vs, r), t) == Net(vs, t) +
      if r.Insert? && r.txn == t then Delta(Apply(vs, r), |vs|) else 0
  {
    var ws := Apply(vs, r);
    SumDeltaPrefix(vs, ws, set n: nat | n < |vs| && vs[n].xmin == t, set n: nat | n < |ws| && ws[n].xmin == t, |vs|);
  }

  /** Once `t` has committed, its net amount is settled. */
  lemma {:induction false} NetFrozen(log: seq<LogRecord>, k: nat, t: TxnId)
    requires LogOk(log) && k <= |log| && Commit(t) in log[..k]
    ensures Net(Fold(log), t) == Net(Fold(log[..k]), t)
  {
    if k == |log| {
      assert log[..k] == log;
    } else {
      var pre := log[..|log| - 1];
      assert RecordOk(pre, log[|log| - 1]);
      assert log[..k] == pre[..k];
      LogOkPrefix(log, |log| - 1);
      NetFrozen(pre, k, t);
      NetApply(Fold(pre), log[|log| - 1], t);
    }
  }

  lemma {:induction false} CommittedNet(log: seq<LogRecord>, t: TxnId)
    requires LogOk(log) && BankRecordsOk(log) && Commit(t) in log && t != OPENER
    ensures Net(Fold(log), t) == 0
  {
    var k := |log| - 1;
    var pre := log[..k];
    LogOkPrefix(log, k);
    BankRecordsPrefix(log, k);
    assert RecordOk(pre, log[k]) && BankRecordOk(pre, log[k]);
    NetApply(Fold(pre), log[k], t);
    if log[k] != Commit(t) {
      CommittedNet(pre, t);
    }
  }

  lemma BankRecordsPrefix(log: seq<LogRecord>, k: nat)
    requires BankRecordsOk(log) && k <= |log|
    ensures BankRecordsOk(log[..k])
  {
    forall j | 0 <= j < k ensures BankRecordOk(log[..k][..j], log[..k][j]) {
      assert log[..k][..j] == log[..j];
    }
  }

  lemma BankRecordsAppend(log: seq<LogRecord>, r: LogRecord)
    requires BankRecordsOk(log) && BankRecordOk(log, r)
    ensures BankRecordsOk(log + [r])
  {
    forall j | 0 <= j < |log + [r]| ensures BankRecordOk((log + [r])[..j], (log + [r])[j]) {
      if j < |log| {
        assert (log + [r])[..j] == log[..j];
      } else {
        assert (log + [r])[..j] == log;
      }
    }
  }

  lemma {:induction false} StampHasSuccessor(log: seq<LogRecord>, p: nat)
    requires LogOk(log) && BankRecordsOk(log)
    requires p < |Fold(log)| && Fold(log)[p].xmax != NO_TXN
    ensures exists n :: 0 <= n < |Fold(log)| && Fold(log)[n].prev == Some(p) && Fold(log)[n].xmin == Fold(log)[p].xmax
  {
    var k := |log| - 1;
    var pre := log[..k];
    LogOkPrefix(log, k);
    BankRecordsPrefix(log, k);
    assert RecordOk(pre, log[k]) && BankRecordOk(pre, log[k]);
    var vs, ws := Fold(pre), Fold(log);
    assert ws == Apply(vs, log[k]);
    if p < |vs| && vs[p].xmax != NO_TXN {
      StampHasSuccessor(pre, p);
      var n :| 0 <= n < |vs| && vs[n].prev == Some(p) && vs[n].xmin == vs[p].xmax;
      assert ws[n].prev == Some(p) && ws[n].xmin == ws[p].xmax;
    } else {
      var n :| 0 <= n < |vs| && vs[n].prev == Some(p) && vs[n].xmin == log[k].txn;
      assert ws[n].prev == Some(p) && ws[n].xmin == ws[p].xmax;
    }
  }

  // ----- The total -----

  lemma SeenAreHeads(balances: seq<int>, b: BankState, t: TxnId)
    requires BankInv(balances, b) && t in b.db.txns && b.db.txns[t].pc.Idle?
    ensures Unforked(b.db.vs, Created(b.db, t))
    ensures (set n: nat | n < |b.db.vs| && Sees(b.db, t, n)) == Heads(b.db.vs, Created(b.db, t), |b.db.vs|)
  {
    var s, g := b.db, Created(b.db, t);
    CreatedUnforked(s, t);
    assert forall q :: q in g ==> Linked(s.vs, q);
    forall n: nat | n < |s.vs| ensures Sees(s, t, n) <==> n in Heads(s.vs, g, |s.vs|) {
      if n in g && s.vs[n].xmax != NO_TXN && EffectVisible(s.vs[n].xmax, s.txns[t].snap, s.commits) {
        StampHasSuccessor(s.log, n);
        var q :| 0 <= q < |s.vs| && s.vs[q].prev == Some(n) && s.vs[q].xmin == s.vs[n].xmax;
        assert q in g;
      }
    }
  }

  /** The transactions whose versions `t` sees created. */
  ghost function SeenCreators(s: State, t: TxnId): set<TxnId>
    requires t in s.txns
  {
    set n: nat | n < |s.vs| && EffectVisible(s.vs[n].xmin, s.txns[t].snap, s.commits) :: s.vs[n].xmin
  }

  lemma SeenCreatorsBalanced(balances: seq<int>, b: BankState, t: TxnId, u: TxnId)
    requires BankInv(balances, b) && t in b.db.txns && b.db.txns[t].pc.Idle?
    requires t in b.progs ==> b.progs[t].done != 1
    requires u in SeenCreators(b.db, t) && u != OPENER
    ensures Net(b.db.vs, u) == 0
  {
    var s := b.db;
    assert TxnOk(s, t);
    FoldFacts(s.log);
    var n: nat :| n < |s.vs| && EffectVisible(s.vs[n].xmin, s.txns[t].snap, s.commits) && s.vs[n].xmin == u;
    assert FromLog(s.log, s.vs[n], n);
    if u != t {
      assert DurablyCommitted(s, u);
      CommittedNet(s.log, u);
    } else {
      assert t in b.progs;
      assert ProgOk(b, t);
    }
  }

  lemma {:induction false} OpenFold(balances: seq<int>, k: nat)
    requires k <= |balances|
    ensures var vs := Fold(OpenInserts(balances)[..k]);
      && |vs| == k && (forall n :: 0 <= n < k ==> vs[n] == Version(OPENER, NO_TXN, None, balances[n]))
      && Net(vs, OPENER) == Sum(balances[..k])
  {
    var log := OpenInserts(balances)[..k];
    if k == 0 {
      SumDeltaEmpty([], 0);
    } else {
      OpenFold(balances, k - 1);
      assert log[..k - 1] == OpenInserts(balances)[..k - 1];
      NetApply(Fold(log[..k - 1]), log[k - 1], OPENER);
      assert balances[..k][..k - 1] == balances[..k - 1];
    }
  }

  lemma OpenNet(balances: seq<int>)
    ensures Net(Fold(OpenLog(balances)), OPENER) == Sum(balances)
  {
    var ins := OpenInserts(balances);
    OpenFold(balances, |balances|);
    assert ins[..|balances|] == ins && balances[..|balances|] == balances;
    FoldAppend(ins, Commit(OPENER));
  }

  /** The total a transaction sees, unless it is itself half-way through a transfer. */
  lemma TotalInv(balances: seq<int>, b: BankState, t: TxnId)
    requires BankInv(balances, b) && t in b.db.txns && b.db.txns[t].pc.Idle?
    requires t in b.progs ==> b.progs[t].done != 1
    ensures TotalSeen(b.db, t) == Sum(balances)
  {
    var s := b.db;
    var ts := SeenCreators(s, t);
    SeenAreHeads(balances, b, t);
    Telescope(s.vs, Created(s, t), |s.vs|);
    forall u | u in ts && u != OPENER ensures Net(s.vs, u) == 0 {
      SeenCreatorsBalanced(balances, b, t, u);
    }
    SumByTxn(s.vs, ts, s.next);
    CreatedIsCreatedBy(b, t);
    OpenerNet(balances, b, t);
  }

  lemma CreatedIsCreatedBy(b: BankState, t: TxnId)
    requires Inv(b.db) && t in b.db.txns
    ensures Created(b.db, t) == CreatedBy(b.db.vs, SeenCreators(b.db, t), b.db.next)
  {
    var s := b.db;
    FoldFacts(s.log);
    forall n: nat | n < |s.vs| ensures n in Created(s, t) <==> n in CreatedBy(s.vs, SeenCreators(s, t), s.next) {
      assert FromLog(s.log, s.vs[n], n);
      if s.vs[n].xmin in SeenCreators(s, t) {
        var m: nat :| m < |s.vs| && EffectVisible(s.vs[m].xmin, s.txns[t].snap, s.commits)
          && s.vs[m].xmin == s.vs[n].xmin;
      }
    }
  }

  lemma OpenerNet(balances: seq<int>, b: BankState, t: TxnId)
    requires BankInv(balances, b) && t in b.db.txns
    ensures Net(b.db.vs, OPENER) == Sum(balances)
    ensures OPENER !in SeenCreators(b.db, t) ==> Net(b.db.vs, OPENER) == 0
  {
    var s := b.db;
    var k := |OpenLog(balances)|;
    assert s.log[..k] == OpenLog(balances);
    assert OpenLog(balances)[k - 1] == Commit(OPENER);
    OpenNet(balances);
    NetFrozen(s.log, k, OPENER);
    assert Commit(OPENER) in s.log by { assert s.log[k - 1] == Commit(OPENER); }
    assert EffectVisible(OPENER, s.txns[t].snap, s.commits);
    if OPENER !in SeenCreators(s, t) {
      assert (set n: nat | n < |s.vs| && s.vs[n].xmin == OPENER) == {};
      SumDeltaEmpty(s.vs, |s.vs|);
    }
  }

  // ----- Every bank run keeps the invariant -----

  lemma OpenedInv(balances: seq<int>)
    ensures BankInv(balances, Opened(balances))
  {
    var log := OpenLog(balances);
    OpenLogOk(balances);
    hide LogOk, BankRecordsOk, Fold, RecoveredCommits, Inv, Closed, Settled;
    MaxTxnBounds(log);
    assert log[|balances|] == Commit(OPENER);
    RecoveredInv(log);
    RecoveredApart(log);
  }

  lemma OpenLogOk(balances: seq<int>)
    ensures LogOk(OpenLog(balances)) && BankRecordsOk(OpenLog(balances))
  {
    hide RecordOk, BankRecordOk;
    var log := OpenLog(balances);
    forall j | 0 <= j < |log| ensures RecordOk(log[..j], log[j]) && BankRecordOk(log[..j], log[j]) {
      OpenRecordOk(balances, j);
    }
  }

  lemma OpenRecordOk(balances: seq<int>, j: nat)
    requires j < |OpenLog(balances)|
    ensures var log := OpenLog(balances); RecordOk(log[..j], log[j]) && BankRecordOk(log[..j], log[j])
  {
    var ins, log := OpenInserts(balances), OpenLog(balances);
    assert log[..j] == ins[..j];
    assert forall i :: 0 <= i < j ==> log[..j][i].Insert?;
    OpenFold(balances, j);
    hide Fold;
  }

  // A version a transfer picked was visible to it from the start, and once hidden from it stays hidden.

  lemma EarlierSeen(s: State, t: TxnId, c: TxnId)
    requires Inv(s) && t in s.txns && Earlier(s, t, c)
    ensures EffectVisible(c, s.txns[t].snap, s.commits)
  {
    hide LogOk, Fold, UnlinkedOk, CommitsOk, PendingOk;
    assert TxnOk(s, t);
  }

  lemma ReadsKept(b: BankState, step: Step, t: TxnId)
    requires Inv(b.db) && Enabled(b.db, step) && !step.Crash? && t in b.progs && PickOk(b, t)
    requires t in b.db.txns && t in Do(b.db, step).txns && ReadsOk(b.db, t, b.progs[t])
    ensures ReadsOk(Do(b.db, step), t, b.progs[t])
  {
    hide Inv, Do, Enabled, Sees, Earlier;
    var s, p := b.db, b.progs[t];
    EarlierSeen(s, t, s.vs[p.i].xmin);
    EarlierSeen(s, t, s.vs[p.j].xmin);
    HiddenStays(s, step, t, p.i);
    HiddenStays(s, step, t, p.j);
  }

  /** Committed and gone is for good, and for every later snapshot. */
  lemma EarlierStep(s: State, step: Step, t: TxnId, c: TxnId)
    requires Inv(s) && Enabled(s, step) && !step.Crash? && Earlier(s, t, c) && t < s.next
    ensures Earlier(Do(s, step), t, c)
  {
    hide LogOk, Fold, UnlinkedOk, CommitsOk, PendingOk, TxnOk;
  }

  lemma PickStep(b: BankState, step: Step, progs: map<TxnId, Prog>, t: TxnId)
    requires Inv(b.db) && Enabled(b.db, step) && !step.Crash? && t in b.progs && PickOk(b, t)
    requires t in progs && progs[t].i == b.progs[t].i && progs[t].j == b.progs[t].j
    requires t in b.db.pending ==> progs[t] == b.progs[t]
    ensures PickOk(BankState(Do(b.db, step), progs), t)
  {
    hide Inv, Earlier;
    var s, s', p := b.db, Do(b.db, step), b.progs[t];
    EarlierStep(s, step, t, s.vs[p.i].xmin);
    EarlierStep(s, step, t, s.vs[p.j].xmin);
    assert |s.vs| <= |s'.vs| && s'.vs[p.i].xmin == s.vs[p.i].xmin && s'.vs[p.j].xmin == s.vs[p.j].xmin;
    assert s.next <= s'.next && forall u :: u in s'.pending ==> u in s.pending || u == s.next;
  }

  /** Steps that change neither the versions nor how many updates are done. */
  lemma QuietPc(b: BankState, step: Step, t: TxnId)
    requires Allowed(b, Db(step)) && !step.Crash? && !step.DoStamp? && !step.InsertNew? && t in b.progs
    requires t in b.db.txns && t in Do(b.db, step).txns && PcOk(b.progs[t], b.db.txns[t].pc)
    requires t !in b.db.pending
    ensures var pc, pc' := b.db.txns[t].pc, Do(b.db, step).txns[t].pc;
      PcOk(b.progs[t], pc') && (!pc'.Ending? ==> !pc.Ending? && Owed(b.progs[t], pc') == Owed(b.progs[t], pc))
  {
  }

  lemma QuietProg(b: BankState, step: Step, t: TxnId)
    requires Inv(b.db) && Allowed(b, Db(step)) && !step.Crash? && !step.DoStamp? && !step.InsertNew?
    requires t in b.progs && PickOk(b, t) && t in b.db.txns && t in Do(b.db, step).txns && ProgOk(b, t)
    ensures ProgOk(Step1(b, Db(step)), t)
  {
    hide LogOk, Fold, UnlinkedOk, CommitsOk, PickOk, ReadsOk, TxnOk;
    RunningNotPending(b.db, t);
    ReadsKept(b, step, t);
    QuietPc(b, step, t);
  }

  /** Others' inserts and stamps change neither what `t` has read nor its net amount. */
  lemma OtherProg(b: BankState, step: Step, t: TxnId)
    requires Inv(b.db) && Allowed(b, Db(step)) && (step.DoStamp? || step.InsertNew?) && step.t != t
    requires t in b.progs && PickOk(b, t) && t in b.db.txns && ProgOk(b, t)
    ensures t in Do(b.db, step).txns && ProgOk(Step1(b, Db(step)), t)
  {
    ReadsKept(b, step, t);
    var pc := b.db.txns[step.t].pc;
    NetApply(b.db.vs, if step.DoStamp? then Stamp(step.t, pc.target, pc.Validated?)
                      else Insert(step.t, Some(pc.target), pc.op.data), t);
  }

  lemma OwnInsert(b: BankState, t: TxnId)
    requires Inv(b.db) && Allowed(b, Db(InsertNew(t))) && t in b.progs && ProgOk(b, t)
    ensures ProgOk(Step1(b, Db(InsertNew(t))), t)
  {
    var s, s' := b.db, Do(b.db, InsertNew(t));
    var pc := s.txns[t].pc;
    assert TxnOk(s, t);
    NetApply(s.vs, Insert(t, Some(pc.target), pc.op.data), t);
    assert Sees(s, t, pc.target);
    assert forall n :: 0 <= n < |s.vs| ==> Sees(s', t, n) == Sees(s, t, n);
  }

  lemma OwnStamp(b: BankState, t: TxnId)
    requires Inv(b.db) && Allowed(b, Db(DoStamp(t))) && t in b.progs && ProgOk(b, t)
    ensures ProgOk(Step1(b, Db(DoStamp(t))), t)
  {
    hide LogOk, Fold, UnlinkedOk, CommitsOk, PendingOk;
    var s, s' := b.db, Do(b.db, DoStamp(t));
    var pc := s.txns[t].pc;
    assert TxnOk(s, t);
    NetApply(s.vs, Stamp(t, pc.target, pc.Validated?), t);
    assert forall n :: 0 <= n < |s.vs| && Sees(s', t, n) ==> Sees(s, t, n);
  }

  lemma StampRecordOk(b: BankState, t: TxnId)
    requires Inv(b.db) && Enabled(b.db, DoStamp(t)) && t in b.progs && ProgOk(b, t)
    ensures b.db.txns[t].pc.Inserted?
    ensures BankRecordOk(b.db.log, Stamp(t, b.db.txns[t].pc.target, false))
  {
    assert TxnOk(b.db, t);
    var n := b.db.txns[t].pc.newest;
    assert b.db.vs[n].prev == Some(b.db.txns[t].pc.target) && b.db.vs[n].xmin == t;
  }

  /** Whatever a step appends to the log, the bank's discipline holds of it. */
  lemma KeepBankLog(balances: seq<int>, b: BankState, step: Step)
    requires BankInv(balances, b) && Allowed(b, Db(step)) && !step.Crash?
    ensures BankLogOk(balances, Do(b.db, step).log)
  {
    hide PickOk, Closed, LogOk, Fold, UnlinkedOk, CommitsOk, PendingOk, BankRecordsOk, ReadsOk;
    var s := b.db;
    match step
    case InsertNew(t) =>
      BankRecordsAppend(s.log, Insert(t, Some(s.txns[t].pc.target), s.txns[t].pc.op.data));
    case DoStamp(t) =>
      assert TxnOk(s, t) && t in b.progs;
      StampRecordOk(b, t);
      BankRecordsAppend(s.log, Stamp(t, s.txns[t].pc.target, false));
    case LogEnd(t, commit) =>
      if s.txns[t].mode == ReadWrite {
        assert t in b.progs && ProgOk(b, t);
        BankRecordsAppend(s.log, if commit then Commit(t) else Abort(t));
      }
    case _ =>
  }

  lemma KeepProgs(balances: seq<int>, b: BankState, step: Step, t: TxnId)
    requires BankInv(balances, b) && Allowed(b, Db(step)) && !step.Crash?
    requires t in b.progs && t in Do(b.db, step).txns
    ensures ProgOk(Step1(b, Db(step)), t)
  {
    assert t in b.db.txns by { TxnFrame(b.db, step, t); }
    assert ProgOk(b, t) && PickOk(b, t);
    if step.InsertNew? {
      if step.t == t { OwnInsert(b, t); } else { OtherProg(b, step, t); }
    } else if step.DoStamp? {
      if step.t == t { OwnStamp(b, t); } else { OtherProg(b, step, t); }
    } else {
      QuietProg(b, step, t);
    }
  }

  lemma TxnFrame(s: State, step: Step, u: TxnId)
    requires Enabled(s, step) && !step.Crash? && u in Do(s, step).txns
    ensures var x := Do(s, step).txns[u];
      if step.Register? && u == step.t then x.snap == TakeSnapshot(s, u) && x.mode == step.mode
      else u in s.txns && x.snap == s.txns[u].snap && x.mode == s.txns[u].mode
  {
  }

  lemma Grows(s: State, step: Step)
    requires Enabled(s, step) && !step.Crash? && s.durable <= |s.log|
    ensures s.next <= Do(s, step).next && s.durable <= Do(s, step).durable
  {
  }

  lemma KeepModes(balances: seq<int>, b: BankState, step: Step)
    requires BankInv(balances, b) && Allowed(b, Db(step)) && !step.Crash?
    ensures var b' := Step1(b, Db(step));
      && OPENER !in b'.db.pending
      && b'.progs.Keys == b.progs.Keys && b.db.next <= b'.db.next && b.db.durable <= b'.db.durable
      && OPENER !in b'.db.txns
      && (forall t :: t in b'.db.txns ==> Over(b'.db.txns[t].snap, OPENER))
      && (forall t :: t in b'.db.txns && t !in b'.progs ==> b'.db.txns[t].mode == ReadOnly)
  {
    hide ProgOk, PickOk, Closed, BankLogOk, OpenLog, LogOk, Fold, UnlinkedOk, CommitsOk, TxnOk, PendingOk;
    Grows(b.db, step);
    forall u | u in Do(b.db, step).txns
      ensures u != OPENER && Over(Do(b.db, step).txns[u].snap, OPENER)
      ensures u !in b.progs ==> Do(b.db, step).txns[u].mode == ReadOnly
    {
      TxnFrame(b.db, step, u);
    }
  }

  lemma NextIsNew(s: State)
    requires Inv(s)
    ensures s.next !in s.txns && s.next !in s.pending
  {
    hide LogOk, Fold, UnlinkedOk, CommitsOk;
  }

  /** A published version was made by a transaction that is over before the id now allocated. */
  lemma PublishedEarlier(s: State, i: nat)
    requires Inv(s) && Published(s, i)
    ensures Earlier(Do(s, Alloc), s.next, s.vs[i].xmin)
  {
    FoldFacts(s.log);
    LogOkWritten(s.log);
    UserTxns(s.log);
    assert FromLog(s.log, s.vs[i], i);
    forall u | u in s.txns ensures s.txns[u].snap.xmax <= s.next {
      SnapBelow(s, u);
    }
    hide LogOk, Fold, UnlinkedOk, CommitsOk, TxnOk, FromLog;
  }

  lemma SameProg(b: BankState, b': BankState, t: TxnId)
    requires t in b.progs && t in b.db.txns && ProgOk(b, t)
    requires b'.db.vs == b.db.vs && b'.db.commits == b.db.commits
    requires t in b'.progs && b'.progs[t] == b.progs[t] && t in b'.db.txns && b'.db.txns[t] == b.db.txns[t]
    ensures ProgOk(b', t)
  {
  }

  lemma KeepPick(balances: seq<int>, b: BankState, i: nat, j: nat, amt: int)
    requires BankInv(balances, b) && Allowed(b, Pick(i, j, amt))
    ensures BankInv(balances, Step1(b, Pick(i, j, amt)))
  {
    hide ProgOk, TxnOk, Closed, UnlinkedOk, CommitsOk, LogOk, Fold, BankLogOk, OpenLog, Earlier, PendingOk;
    var b' := Step1(b, Pick(i, j, amt));
    StepKeepsInv(b.db, Alloc);
    SameClosed(b.db, b'.db);
    NextIsNew(b.db);
    PublishedEarlier(b.db, i);
    PublishedEarlier(b.db, j);
    forall u | u in b'.progs ensures PickOk(b', u) && (u in b'.db.txns ==> ProgOk(b', u)) {
      if u != b.db.next {
        assert PickOk(b, u);
        PickStep(b, Alloc, b'.progs, u);
        if u in b.db.txns { SameProg(b, b', u); }
      }
    }
  }

  lemma KeepStart(balances: seq<int>, b: BankState, t: TxnId)
    requires BankInv(balances, b) && Allowed(b, Start(t))
    ensures BankInv(balances, Step1(b, Start(t)))
  {
    hide ProgOk, TxnOk, Closed, UnlinkedOk, CommitsOk, LogOk, Fold, BankLogOk, OpenLog, Earlier;
    var b' := Step1(b, Start(t));
    StepKeepsInv(b.db, Register(t, ReadWrite));
    RegisterClosed(b.db, t, ReadWrite);
    forall u | u in b'.progs ensures PickOk(b', u) && (u in b'.db.txns ==> ProgOk(b', u)) {
      assert PickOk(b, u);
      PickStep(b, Register(t, ReadWrite), b'.progs, u);
      if u == t {
        StartProg(b, t);
      } else if u in b.db.txns {
        SameProg(b, b', u);
      }
    }
  }

  lemma RunningNotPending(s: State, t: TxnId)
    requires Inv(s) && t in s.txns
    ensures t !in s.pending
  {
    hide LogOk, Fold, UnlinkedOk, CommitsOk, TxnOk;
  }

  lemma KeepRead(balances: seq<int>, b: BankState, t: TxnId)
    requires BankInv(balances, b) && Allowed(b, ReadBalances(t))
    ensures BankInv(balances, Step1(b, ReadBalances(t)))
  {
    hide ProgOk, Earlier, Inv, Closed, BankLogOk, OpenLog;
    var b' := Step1(b, ReadBalances(t));
    RunningNotPending(b.db, t);
    forall u | u in b'.progs ensures PickOk(b', u) && (u in b'.db.txns ==> ProgOk(b', u)) {
      assert PickOk(b, u);
      if u == t {
        ReadProg(b, t);
      } else if u in b.db.txns {
        SameProg(b, b', u);
      }
    }
  }

  lemma OpenPrefix(balances: seq<int>, log: seq<LogRecord>)
    requires OpenLog(balances) <= log
    ensures MaxTxn(log) >= OPENER
  {
    MaxTxnBounds(log);
    assert log[|balances|] == OpenLog(balances)[|balances|] == Commit(OPENER);
  }

  lemma KeepCrash(balances: seq<int>, b: BankState, keep: nat)
    requires BankInv(balances, b) && Allowed(b, Db(Crash(keep)))
    ensures BankInv(balances, Step1(b, Db(Crash(keep))))
  {
    var log := b.db.log[..keep];
    StepKeepsInv(b.db, Crash(keep));
    RecoveredApart(log);
    assert OpenLog(balances) <= log;
    OpenPrefix(balances, log);
    BankRecordsPrefix(b.db.log, keep);
    assert Step1(b, Db(Crash(keep))) == BankState(Recovered(log), map[]);
  }

  /** Transfers build only on what was over before they got their ids. */
  lemma BankClosed(balances: seq<int>, b: BankState, step: Step)
    requires BankInv(balances, b) && Allowed(b, Db(step)) && !step.Crash?
    ensures Closed(Do(b.db, step))
  {
    hide Inv, Closed, BankLogOk, ProgOk, PickOk;
    if step.Register? {
      RegisterClosed(b.db, step.t, step.mode);
    } else if step.InsertNew? {
      InsertNewCloses(balances, b, step.t);
    } else if step.DoStamp? {
      DoStampCloses(balances, b, step.t);
    } else {
      SameClosed(b.db, Do(b.db, step));
    }
  }

  lemma Transferring(balances: seq<int>, b: BankState, t: TxnId)
    requires BankInv(balances, b) && t in b.db.txns && (b.db.txns[t].pc.Validated? || b.db.txns[t].pc.Inserted?)
    ensures t in b.progs && ProgOk(b, t) && PickOk(b, t) && TxnOk(b.db, t)
  {
    hide LogOk, Fold, UnlinkedOk, CommitsOk, PendingOk, Closed, BankLogOk, ProgOk, PickOk;
    assert TxnOk(b.db, t);
  }

  lemma InsertNewCloses(balances: seq<int>, b: BankState, t: TxnId)
    requires BankInv(balances, b) && Enabled(b.db, InsertNew(t))
    ensures Closed(Do(b.db, InsertNew(t)))
  {
    hide Inv, Closed, BankLogOk, ReadsOk, Net;
    Transferring(balances, b, t);
    var s, pc := b.db, b.db.txns[t].pc;
    var r := Insert(t, Some(pc.target), pc.op.data);
    assert Earlier(s, t, s.vs[pc.target].xmin);
    assert Behind(s, t, s.vs[pc.target].xmin);
    InsertClosed(s, r);
    SameClosed(Append(s, r), Do(s, InsertNew(t)));
  }

  lemma DoStampCloses(balances: seq<int>, b: BankState, t: TxnId)
    requires BankInv(balances, b) && Enabled(b.db, DoStamp(t))
    ensures Closed(Do(b.db, DoStamp(t)))
  {
    hide Inv, BankLogOk, ReadsOk, Net, Behind, PickOk;
    Transferring(balances, b, t);
    var s, pc := b.db, b.db.txns[t].pc;
    var r := Stamp(t, pc.target, pc.Validated?);
    assert Uses(s.vs, t, s.vs[pc.target].xmin) by {
      assert s.vs[pc.newest].xmin == t && s.vs[pc.newest].prev == Some(pc.target);
    }
    StampClosed(s, r);
    SameClosed(Append(s, r), Do(s, DoStamp(t)));
  }

  lemma KeepDb(balances: seq<int>, b: BankState, step: Step)
    requires BankInv(balances, b) && Allowed(b, Db(step)) && !step.Crash?
    ensures BankInv(balances, Step1(b, Db(step)))
  {
    hide ProgOk, PickOk, Inv, Closed, BankLogOk, OpenLog;
    var b' := Step1(b, Db(step));
    StepKeepsInv(b.db, step);
    BankClosed(balances, b, step);
    KeepBankLog(balances, b, step);
    KeepModes(balances, b, step);
    forall t | t in b'.progs ensures PickOk(b', t) && (t in b'.db.txns ==> ProgOk(b', t)) {
      KeepPicks(balances, b, step, t);
      if t in b'.db.txns { KeepProgs(balances, b, step, t); }
    }
  }

  lemma KeepPicks(balances: seq<int>, b: BankState, step: Step, t: TxnId)
    requires BankInv(balances, b) && Allowed(b, Db(step)) && !step.Crash? && t in b.progs
    ensures PickOk(Step1(b, Db(step)), t)
  {
    hide ProgOk, Closed, BankLogOk, OpenLog, LogOk, Fold, UnlinkedOk, CommitsOk, TxnOk;
    assert PickOk(b, t);
    PickStep(b, step, Step1(b, Db(step)).progs, t);
  }

  lemma KeepBankInv(balances: seq<int>, b: BankState, step: BankStep)
    requires BankInv(balances, b) && Allowed(b, step)
    ensures BankInv(balances, Step1(b, step))
  {
    match step
    case Pick(i, j, amt) => KeepPick(balances, b, i, j, amt);
    case Start(t) => KeepStart(balances, b, t);
    case ReadBalances(t) => KeepRead(balances, b, t);
    case Db(db) =>
      if db.Crash? {
        KeepCrash(balances, b, db.keep);
      } else {
        KeepDb(balances, b, db);
      }
  }

  lemma StartProg(b: BankState, t: TxnId)
    requires Inv(b.db) && t in b.db.pending && t in b.progs && b.progs[t].read.None? && b.progs[t].done == 0
    ensures ProgOk(Step1(b, Start(t)), t)
  {
    FoldFacts(b.db.log);
    assert forall n :: 0 <= n < |b.db.vs| ==> FromLog(b.db.log, b.db.vs[n], n);
    assert (set n: nat | n < |b.db.vs| && b.db.vs[n].xmin == t) == {};
    SumDeltaEmpty(b.db.vs, |b.db.vs|);
  }

  lemma ReadProg(b: BankState, t: TxnId)
    requires Inv(b.db) && Allowed(b, ReadBalances(t)) && ProgOk(b, t)
    ensures ProgOk(Step1(b, ReadBalances(t)), t)
  {
  }

  lemma {:induction false} BankRunInv(balances: seq<int>, steps: seq<BankStep>, b: BankState)
    requires BankRun(balances, steps, b)
    ensures BankInv(balances, b)
  {
    if steps == [] {
      OpenedInv(balances);
    } else {
      var last := |steps| - 1;
      var p :| BankRun(balances, steps[..last], p) && Allowed(p, steps[last]) && Step1(p, steps[last]) == b;
      BankRunInv(balances, steps[..last], p);
      KeepBankInv(balances, p, steps[last]);
    }
  }

  /**
   * In every interleaving of transfers, readers, aborts and crashes, a scan by any transaction that is
   * between operations and not itself half-way through a transfer adds up to the opening total.
   */
  lemma BankTotal(balances: seq<int>, steps: seq<BankStep>, b: BankState, t: TxnId)
    requires BankRun(balances, steps, b) && t in b.db.txns && b.db.txns[t].pc.Idle?
    requires t in b.progs ==> b.progs[t].done != 1
    ensures TotalSeen(b.db, t) == Sum(balances)
  {
    BankRunInv(balances, steps, b);
    TotalInv(balances, b, t);
  }

  lemma BankRunExtend(balances: seq<int>, steps: seq<BankStep>, b: BankState, step: BankStep)
    requires BankRun(balances, steps, b) && Allowed(b, step)
    ensures BankRun(balances, steps + [step], Step1(b, step))
  {
    assert (steps + [step])[..|steps|] == steps;
  }

  /** After any crash of any run, recovery and a fresh reader, the total is still there. */
  lemma BankTotalAfterCrash(balances: seq<int>, steps: seq<BankStep>, b: BankState, keep: nat)
    requires BankRun(balances, steps, b) && Enabled(b.db, Crash(keep))
    ensures var r := Begun(Do(b.db, Crash(keep)), ReadOnly);
      TotalSeen(r, r.next - 1) == Sum(balances)
  {
    hide BankRun, Sum, TotalSeen, RecoveredCommits, Fold, MaxTxn;
    var c := Step1(b, Db(Crash(keep)));
    BankRunExtend(balances, steps, b, Db(Crash(keep)));
    var steps1, t := steps + [Db(Crash(keep))], c.db.next;
    BankRunExtend(balances, steps1, c, Db(Alloc));
    var steps2, d := steps1 + [Db(Alloc)], Step1(c, Db(Alloc));
    BankRunExtend(balances, steps2, d, Db(Register(t, ReadOnly)));
    BankTotal(balances, steps2 + [Db(Register(t, ReadOnly))], Step1(d, Db(Register(t, ReadOnly))), t);
  }

  /** Overlapping begins or not, no transaction of the bank sees two versions of one account. */
  lemma BankOneVisible(balances: seq<int>, steps: seq<BankStep>, b: BankState, t: TxnId, m: nat, n: nat)
    requires BankRun(balances, steps, b) && t in b.db.txns && b.db.txns[t].pc.Idle?
    requires m < |b.db.vs| && n < |b.db.vs| && Root(b.db.vs, m) == Root(b.db.vs, n)
    ensures Sees(b.db, t, m) && Sees(b.db, t, n) ==> m == n
  {
    BankRunInv(balances, steps, b);
    SeesOne(b.db, t, m, n);
  }

  // ----- The opened bank is a state of the store -----

  /** The opening transaction after its first `k` inserts. */
  function Opening(balances: seq<int>, k: nat): State
    requires k <= |balances|
  {
    var log := OpenInserts(balances)[..k];
    State(OPENER + 1, {}, map[OPENER := Txn(Snapshot(OPENER, OPENER + 1, {}), ReadWrite, Idle)],
          map[BOOTSTRAP_TXN := Committed], map[], Fold(log), log, 0)
  }

  lemma RunStep(steps: seq<Step>, s: State, step: Step)
    requires Run(steps, s) && Enabled(s, step)
    ensures Run(steps + [step], Do(s, step))
  {
    assert (steps + [step])[..|steps|] == steps;
  }

  lemma {:induction false} OpeningRun(balances: seq<int>, k: nat) returns (steps: seq<Step>)
    requires k <= |balances|
    ensures Run(steps, Opening(balances, k))
  {
    if k == 0 {
      assert Run([], Init);
      RunStep([], Init, Alloc);
      RunStep([Alloc], Do(Init, Alloc), Register(OPENER, ReadWrite));
      steps := [Alloc] + [Register(OPENER, ReadWrite)];
      assert Do(Init, Alloc).txns.Keys == {};
      var s := Do(Do(Init, Alloc), Register(OPENER, ReadWrite));
      assert s.pending == {} && s.txns == Opening(balances, 0).txns && OpenInserts(balances)[..0] == [];
    } else {
      var pre := OpeningRun(balances, k - 1);
      var step := DoInsert(OPENER, balances[k - 1]);
      RunStep(pre, Opening(balances, k - 1), step);
      steps := pre + [step];
      var ins := OpenInserts(balances);
      assert ins[..k] == ins[..k - 1] + [ins[k - 1]];
      FoldAppend(ins[..k - 1], ins[k - 1]);
      assert Do(Opening(balances, k - 1), step) == Opening(balances, k);
    }
  }

  /** The opening transaction has logged its commit and left. */
  lemma OpenedRun(balances: seq<int>) returns (steps: seq<Step>)
    ensures Run(steps, Opened(balances).db)
  {
    hide Run, Fold;
    var s := Opening(balances, |balances|);
    steps := OpeningRun(balances, |balances|);
    assert OpenInserts(balances)[..|balances|] == OpenInserts(balances);
    var t := OPENER;
    RunStep(steps, s, LogEnd(t, true));
    var s1 := Do(s, LogEnd(t, true));
    RunStep(steps + [LogEnd(t, true)], s1, Flush(t));
    var s2 := Do(s1, Flush(t));
    steps := steps + [LogEnd(t, true)] + [Flush(t)];
    RunStep(steps, s2, RecordEnd(t));
    var s3 := Do(s2, RecordEnd(t));
    RunStep(steps + [RecordEnd(t)], s3, Release(t));
    var s4 := Do(s3, Release(t));
    steps := steps + [RecordEnd(t)] + [Release(t)];
    RunStep(steps, s4, Leave(t));
    steps := steps + [Leave(t)];
    FoldAppend(OpenInserts(balances), Commit(OPENER));
    OpenedIsLeft(balances, Do(s4, Leave(t)));
  }

  lemma OpenedIsLeft(balances: seq<int>, s: State)
    requires var log := OpenLog(balances);
      s == State(OPENER + 1, {}, map[], map[BOOTSTRAP_TXN := Committed][OPENER := Committed], map[], Fold(log), log,
                 |log|)
    ensures s == Opened(balances).db
  {
    hide Fold;
    var log := OpenLog(balances);
    MaxTxnBounds(log);
    assert log[|balances|] == Commit(OPENER);
    assert MaxTxn(log) == OPENER by { OpenMax(balances, |log|); }
    assert Abort(OPENER) !in log && Abort(BOOTSTRAP_TXN) !in log;
    assert RecoveredCommits(log) == s.commits;
  }

  lemma {:induction false} OpenMax(balances: seq<int>, k: nat)
    requires k <= |OpenLog(balances)|
    ensures MaxTxn(OpenLog(balances)[..k]) == if k == 0 then BOOTSTRAP_TXN else OPENER
    ensures OpenLog(balances)[..|OpenLog(balances)|] == OpenLog(balances)
  {
    if k > 0 {
      OpenMax(balances, k - 1);
      assert OpenLog(balances)[..k][..k - 1] == OpenLog(balances)[..k - 1];
    }
  }

  /** And every state of the bank is one the store reaches. */
  lemma {:induction false} BankIsRun(balances: seq<int>, steps: seq<BankStep>, b: BankState) returns (run: seq<Step>)
    requires BankRun(balances, steps, b)
    ensures Run(run, b.db)
  {
    hide Run, Opened;
    if steps == [] {
      run := OpenedRun(balances);
    } else {
      var last := |steps| - 1;
      var p :| BankRun(balances, steps[..last], p) && Allowed(p, steps[last]) && Step1(p, steps[last]) == b;
      run := BankIsRun(balances, steps[..last], p);
      if !steps[last].ReadBalances? {
        var step := match steps[last]
          case Pick(_, _, _) => Alloc case Start(t) => Register(t, ReadWrite) case Db(db) => db;
        RunStep(run, p.db, step);
        run := run + [step];
      }
    }
  }
}
