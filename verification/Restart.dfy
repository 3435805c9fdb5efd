/** From the report of a recovery to the scans of the transactions that begin after it. */
module Restart {
  import opened Visibility
  import opened Redo
  import opened StoreLog
  import R = Recovery
  import M = TxnManager

  /** The manager built from the report of a recovery is a start like any other. */
  lemma RestartedInv(log: seq<Rec>, report: R.Report, m: M.Mgr)
    requires R.ReportOk(log, report) && M.RecoveredFrom(report.nextTxn, report.committed, report.aborted, m)
    ensures M.Inv(m)
  {
    forall t | t in report.committed || t in report.aborted ensures t < report.nextTxn {
      ReportedBelow(log, report, t);
    }
    hide R.ReportOk;
    M.RecoveredInv(report.nextTxn, report.committed, report.aborted, m);
  }

  lemma ReportedBelow(log: seq<Rec>, report: R.Report, t: TxnId)
    requires R.ReportOk(log, report) && (t in report.committed || t in report.aborted)
    ensures t < report.nextTxn
  {
    assert R.HasCommit(log, t) || R.HasAbort(log, t) || R.HasData(log, t);
    var i: nat :| i < |log| && log[i].txn == t;
    R.MaxTxnIs(log);
  }

  /**
   * Every snapshot taken after a restart, begins overlapping or not, is fresh for good: it leaves out no
   * transaction from before the crash, and their statuses are those of the report at any later time.
   */
  lemma RestartedFresh(log: seq<Rec>, report: R.Report, start: M.Mgr, steps: seq<M.Step>, m: M.Mgr, t: TxnId,
                       more: seq<M.Step>, later: M.Mgr)
    requires R.ReportOk(log, report) && M.RecoveredFrom(report.nextTxn, report.committed, report.aborted, start)
    requires M.Exec(start, steps, m) && M.Enabled(m, M.Register(t)) && M.Exec(M.Do(m, M.Register(t)), more, later)
    ensures FreshAfter(report, M.TakeSnapshot(m, t), later.commits)
  {
    RestartedInv(log, report, start);
    M.ExecInv(start, steps, m);
    M.DoInv(m, M.Register(t));
    hide R.ReportOk, M.Exec, M.Inv;
    forall x: TxnId | x < start.next
      ensures x != t && x !in m.active && x < m.next && StatusOf(later.commits, x) == StatusOf(start.commits, x)
    {
      M.SettledKept(start, steps, m, x);
      M.SettledKept(M.Do(m, M.Register(t)), more, later, x);
    }
    assert start.next <= m.next by {
      assert start.next - 1 < start.next;
    }
  }

  /**
   * A scan by any transaction that begins after recovery from any crash state, before anyone writes,
   * returns exactly the live rows the log describes.
   */
  lemma RestartedScan(log: seq<Rec>, disk: Disk, disk': Disk, report: R.Report, start: M.Mgr, steps: seq<M.Step>,
                      m: M.Mgr, t: TxnId, more: seq<M.Step>, later: M.Mgr, h: nat)
    requires StoreHistory(log) && CrashState(log, disk) && R.RedoneTo(log, disk, disk') && R.ReportOk(log, report)
    requires M.RecoveredFrom(report.nextTxn, report.committed, report.aborted, start)
    requires M.Exec(start, steps, m) && M.Enabled(m, M.Register(t)) && M.Exec(M.Do(m, M.Register(t)), more, later)
    ensures var rows := ScanRows(R.HeapPages(log, h), disk', M.TakeSnapshot(m, t), later.commits);
      && (forall rid, d :: Found(rid, d) in rows <==> LiveRow(log, h, rid, d))
      && (forall i, j :: 0 <= i < j < |rows| ==> rows[i].rid != rows[j].rid)
  {
    RestartedFresh(log, report, start, steps, m, t, more, later);
    hide StoreHistory, CrashState, R.RedoneTo, R.ReportOk, FreshAfter, M.Exec, M.RecoveredFrom;
    RecoveredScan(log, disk, disk', report, M.TakeSnapshot(m, t), later.commits, h);
  }
}
