/**
 * A reader that goes from account to account. A scan at one moment always finds the total, but a reader registered
 * while a transfer's id is waiting sees the transfer appear, and so can take one balance from before it and one from
 * after it; a reader that was alone when it registered cannot.
 */
module SplitRead {
  import opened Visibility
  import opened Options
  import opened Mvcc
  import opened Bank
  import O = Overlap

  /** `b'` follows from `b` by allowed steps. */
  ghost predicate Exec1(b: BankState, steps: seq<BankStep>, b': BankState) {
    if steps == [] then b == b'
    else
      var last := |steps| - 1;
      exists p :: Exec1(b, steps[..last], p) && Allowed(p, steps[last]) && Step1(p, steps[last]) == b'
  }

  ghost predicate Leads(b: BankState, b': BankState) {
    exists steps :: Exec1(b, steps, b')
  }

  lemma LeadsSelf(b: BankState)
    ensures Leads(b, b)
  {
    assert Exec1(b, [], b);
  }

  lemma Exec1Step(b: BankState, steps: seq<BankStep>, p: BankState, step: BankStep)
    requires Exec1(b, steps, p) && Allowed(p, step)
    ensures Exec1(b, steps + [step], Step1(p, step))
  {
    assert (steps + [step])[..|steps|] == steps;
  }

  lemma LeadsStep(b: BankState, p: BankState, step: BankStep)
    requires Leads(b, p) && Allowed(p, step)
    ensures Leads(b, Step1(p, step))
  {
    var steps :| Exec1(b, steps, p);
    hide Exec1;
    Exec1Step(b, steps, p, step);
  }

  /** One half of a transfer, from lock to stamp. */
  lemma Half(b0: BankState, b: BankState, t: TxnId, i: nat, data: int)
    requires Leads(b0, b) && O.Ready(b.db, t) && t in b.progs && i < |b.db.vs|
    requires i in b.db.locks ==> b.db.locks[i] == t
    requires CheckWritable(b.db.vs[i].xmin, b.db.vs[i].xmax, b.db.txns[t].snap, b.db.commits)
    requires var p := b.progs[t];
      && p.read.Some?
      && ((p.done == 0 && i == p.i && data == p.read.value.0 - p.amt)
          || (p.done == 1 && i == p.j && data == p.read.value.1 + p.amt))
    ensures Leads(b0, BankState(O.Updated(b.db, t, i, data), b.progs[t := b.progs[t].(done := b.progs[t].done + 1)]))
  {
    hide Leads, CheckWritable;
    var b1 := Step1(b, Db(Lock(t, i, Update(data))));
    var b2 := Step1(b1, Db(Validate(t)));
    var b3 := Step1(b2, Db(InsertNew(t)));
    var b4 := Step1(b3, Db(DoStamp(t)));
    LeadsStep(b0, b, Db(Lock(t, i, Update(data))));
    LeadsStep(b0, b1, Db(Validate(t)));
    LeadsStep(b0, b2, Db(InsertNew(t)));
    LeadsStep(b0, b3, Db(DoStamp(t)));
    assert b4.db.txns == b.db.txns;
    assert b4.db.vs == O.Updated(b.db, t, i, data).vs;
  }

  lemma EndsLogged(b0: BankState, b: BankState, t: TxnId) returns (b': BankState)
    requires Leads(b0, b) && O.Ready(b.db, t) && t in b.progs && b.progs[t].done == 2
    ensures Leads(b0, b') && b'.progs == b.progs
    ensures b'.db == b.db.(log := b.db.log + [Commit(t)], durable := |b.db.log| + 1,
                           txns := b.db.txns[t := b.db.txns[t].(pc := Ending(true, Flushed))])
  {
    hide Leads;
    var b1 := Step1(b, Db(LogEnd(t, true)));
    LeadsStep(b0, b, Db(LogEnd(t, true)));
    LeadsStep(b0, b1, Db(Flush(t)));
    b' := Step1(b1, Db(Flush(t)));
    assert b'.db.txns == b.db.txns[t := b.db.txns[t].(pc := Ending(true, Flushed))];
  }

  lemma Ends(b0: BankState, b: BankState, t: TxnId)
    requires Leads(b0, b) && O.Ready(b.db, t) && t in b.progs && b.progs[t].done == 2
    ensures Leads(b0, BankState(O.Committing(b.db, t), b.progs))
  {
    hide Leads;
    var b2 := EndsLogged(b0, b, t);
    var b3 := Step1(b2, Db(RecordEnd(t)));
    LeadsStep(b0, b2, Db(RecordEnd(t)));
    LeadsStep(b0, b3, Db(Release(t)));
    assert Step1(b3, Db(Release(t))).db.txns == O.Committing(b.db, t).txns;
  }

  lemma OpenedIs(x: int, y: int)
    ensures Opened([x, y]).progs == map[]
    ensures var db := Opened([x, y]).db;
      && db.next == 3 && db.pending == {} && db.txns == map[] && db.locks == map[]
      && StatusOf(db.commits, OPENER) == Committed
      && db.vs == [Version(OPENER, NO_TXN, None, x), Version(OPENER, NO_TXN, None, y)]
  {
    var log := OpenLog([x, y]);
    assert log == [Insert(OPENER, None, x), Insert(OPENER, None, y), Commit(OPENER)];
    assert log[..2] == [Insert(OPENER, None, x), Insert(OPENER, None, y)] && log[..2][..1] == [Insert(OPENER, None, x)];
    OpenLogOk([x, y]);
    LogOkWritten(log);
    RecoveredStatus(log, OPENER);
    assert Fold(log[..2][..1]) == [Version(OPENER, NO_TXN, None, x)];
    assert Fold(log[..2]) == [Version(OPENER, NO_TXN, None, x), Version(OPENER, NO_TXN, None, y)];
    assert MaxTxn(log[..2][..1]) == 2 && MaxTxn(log[..2]) == 2;
  }

  /** The transfer has its id and its versions, and the reader is registered; nothing has been written. */
  ghost predicate Waiting(b: BankState, x: int, y: int, amt: int) {
    && b.db.next == 5 && b.db.pending == {3} && b.db.txns.Keys == {4} && b.db.locks == map[]
    && b.db.txns[4] == Txn(Snapshot(4, 5, {}), ReadOnly, Idle)
    && StatusOf(b.db.commits, OPENER) == Committed
    && b.db.vs == [Version(OPENER, NO_TXN, None, x), Version(OPENER, NO_TXN, None, y)]
    && b.progs == map[3 := Prog(0, 1, amt, None, 0)]
  }

  lemma Waits(x: int, y: int, amt: int) returns (b: BankState)
    ensures Leads(Opened([x, y]), b) && Waiting(b, x, y, amt)
  {
    hide Leads;
    OpenedIs(x, y);
    var b0 := Opened([x, y]);
    hide Opened;
    LeadsSelf(b0);
    LeadsStep(b0, b0, Pick(0, 1, amt));
    var b1 := Step1(b0, Pick(0, 1, amt));
    LeadsStep(b0, b1, Db(Alloc));
    var b2 := Step1(b1, Db(Alloc));
    LeadsStep(b0, b2, Db(Register(4, ReadOnly)));
    b := Step1(b2, Db(Register(4, ReadOnly)));
  }

  /** The transfer has committed and left; its versions are 2 and 3. */
  ghost predicate Moved(b: BankState, x: int, y: int, amt: int) {
    && b.db.txns.Keys == {4} && b.db.txns[4] == Txn(Snapshot(4, 5, {}), ReadOnly, Idle)
    && StatusOf(b.db.commits, 3) == Committed
    && b.db.vs == [Version(OPENER, 3, None, x), Version(OPENER, 3, None, y),
                   Version(3, NO_TXN, Some(0), x - amt), Version(3, NO_TXN, Some(1), y + amt)]
  }

  lemma Transfers(b: BankState, x: int, y: int, amt: int) returns (b': BankState)
    requires Waiting(b, x, y, amt)
    ensures Leads(b, b') && Moved(b', x, y, amt)
  {
    hide Leads;
    LeadsSelf(b);
    LeadsStep(b, b, Start(3));
    var b1 := Step1(b, Start(3));
    LeadsStep(b, b1, ReadBalances(3));
    var b2 := Step1(b1, ReadBalances(3));
    assert b2.progs[3] == Prog(0, 1, amt, Some((x, y)), 0);
    Half(b, b2, 3, 0, x - amt);
    var b3 := BankState(O.Updated(b2.db, 3, 0, x - amt), b2.progs[3 := b2.progs[3].(done := 1)]);
    Half(b, b3, 3, 1, y + amt);
    var b4 := BankState(O.Updated(b3.db, 3, 1, y + amt), b3.progs[3 := b3.progs[3].(done := 2)]);
    Ends(b, b4, 3);
    var b5 := BankState(O.Committing(b4.db, 3), b4.progs);
    LeadsStep(b, b5, Db(Leave(3)));
    b' := Step1(b5, Db(Leave(3)));
  }

  /** `v` reads the account that began with version `root` from the version `c` published for it, and gets `data`. */
  ghost predicate Reads(b: BankState, v: TxnId, root: nat, c: nat, data: int) {
    && v in b.db.txns && b.db.txns[v].mode == ReadOnly && Published(b.db, c) && Root(b.db.vs, c) == root
    && var r := ReadFrom(b.db.vs, c, b.db.txns[v].snap, b.db.commits);
       r.Some? && b.db.vs[r.value].data == data
  }

  /** One balance from before the transfer and one from after it add up to `amt` too much. */
  lemma SplitReadDiffers(x: int, y: int, amt: int)
    returns (b: BankState, b': BankState, v: TxnId, c: nat, c': nat)
    ensures Leads(Opened([x, y]), b) && Leads(b, b')
    ensures Reads(b, v, 0, c, x) && Reads(b', v, 1, c', Sum([x, y]) - x + amt)
  {
    hide Leads, Opened;
    b := Waits(x, y, amt);
    b' := Transfers(b, x, y, amt);
    v, c, c' := 4, 0, 3;
    assert Root(b'.db.vs, 3) == Root(b'.db.vs, 1) == 1;
    assert [x, y][..1] == [x] && Sum([x]) == x;
  }

  // ----- Alone -----

  /** `v` does nothing and there is no crash. */
  predicate Keeps(step: BankStep, v: TxnId) {
    match step
    case Pick(_, _, _) => true
    case Start(t) => t != v
    case ReadBalances(t) => t != v
    case Db(db) => !StepBy(db, v) && !db.Crash?
  }

  ghost predicate SameView(b: BankState, b': BankState, v: TxnId)
    requires v in b.db.txns
  {
    && v in b'.db.txns && b'.db.txns[v] == b.db.txns[v] && |b.db.vs| <= |b'.db.vs|
    && (forall n :: 0 <= n < |b.db.vs| ==> Sees(b'.db, v, n) == Sees(b.db, v, n) && b'.db.vs[n].data == b.db.vs[n].data)
    && (forall n :: |b.db.vs| <= n < |b'.db.vs| ==> !Sees(b'.db, v, n))
  }

  lemma ViewStep(b: BankState, step: BankStep, v: TxnId)
    requires Inv(b.db) && v in b.db.txns && Settled(b.db, v) && Allowed(b, step) && Keeps(step, v)
    ensures Inv(Step1(b, step).db) && SameView(b, Step1(b, step), v) && Settled(Step1(b, step).db, v)
  {
    hide Inv, Settled, Sees;
    if !step.ReadBalances? {
      var db := match step case Pick(_, _, _) => Alloc case Start(t) => Register(t, ReadWrite) case Db(d) => d;
      StepKeepsInv(b.db, db);
      StableStep(b.db, db, v);
      SettledStep(b.db, db, v);
    }
  }

  /** A transaction that was alone when it registered sees the same in every later state of the bank. */
  lemma {:induction false} AloneSeesSame(b: BankState, steps: seq<BankStep>, b': BankState, v: TxnId)
    requires Inv(b.db) && v in b.db.txns && Settled(b.db, v) && Exec1(b, steps, b')
    requires forall step :: step in steps ==> Keeps(step, v)
    ensures Inv(b'.db) && SameView(b, b', v) && Settled(b'.db, v)
  {
    hide Inv, Settled, Sees, Allowed, Step1;
    if steps != [] {
      var last := |steps| - 1;
      var p :| Exec1(b, steps[..last], p) && Allowed(p, steps[last]) && Step1(p, steps[last]) == b';
      assert steps[last] in steps;
      AloneSeesSame(b, steps[..last], p, v);
      ViewStep(p, steps[last], v);
    }
  }

  lemma {:induction false} ExecKeepsBank(balances: seq<int>, b: BankState, steps: seq<BankStep>, b': BankState)
    requires BankInv(balances, b) && Exec1(b, steps, b')
    ensures BankInv(balances, b')
  {
    hide BankInv, Allowed, Step1;
    if steps != [] {
      var last := |steps| - 1;
      var p :| Exec1(b, steps[..last], p) && Allowed(p, steps[last]) && Step1(p, steps[last]) == b';
      ExecKeepsBank(balances, b, steps[..last], p);
      KeepBankInv(balances, p, steps[last]);
    }
  }

  lemma PublishedLinked(s: State, c: nat)
    requires Inv(s) && Published(s, c)
    ensures Linked(s.vs, c)
  {
    hide Fold, UnlinkedOk, TxnOk, PendingOk;
    FoldFacts(s.log);
    assert FromLog(s.log, s.vs[c], c);
    assert Commit(s.vs[c].xmin) in s.log;
    CommittedLinked(s.log);
  }

  /**
   * So a reader that was alone when it registered reads in every later state, from whatever version is published
   * for an account by then, the balance it saw there at first.
   */
  lemma AloneReadsSame(balances: seq<int>, run: seq<BankStep>, b: BankState, steps: seq<BankStep>, b': BankState,
                       v: TxnId, u: nat, c: nat)
    requires BankRun(balances, run, b) && v in b.db.txns && b.db.txns[v] == Txn(b.db.txns[v].snap, ReadOnly, Idle)
    requires Settled(b.db, v) && Exec1(b, steps, b') && forall step :: step in steps ==> Keeps(step, v)
    requires u < |b.db.vs| && Sees(b.db, v, u)
    requires u <= c && Published(b'.db, c) && Root(b'.db.vs, u) == Root(b'.db.vs, c)
    ensures Reads(b', v, Root(b'.db.vs, u), c, b.db.vs[u].data)
  {
    hide BankRun;
    BankRunInv(balances, run, b);
    AloneSeesSame(b, steps, b', v);
    ExecKeepsBank(balances, b, steps, b');
    hide Exec1, Settled, Closed, Keeps, Root, Sees, BankLogOk, ProgOk, PickOk, LogOk, Fold, UnlinkedOk, CommitsOk;
    PublishedLinked(b'.db, c);
    ReadsFromLinked(b'.db, v, c, u);
  }
}
