/**
 * `read` on the pages and `read` in the version machine: the walk along the back pointers of the rows
 * finds the row of the version that the walk along the chain of versions finds.
 */
module StoreReads {
  import opened Bytes
  import opened Options
  import opened Visibility
  import opened RecordHeader
  import opened Redo
  import opened StoreLog
  import opened StoreVersions
  import M = Mvcc
  import R = Recovery
  import S = Store

  function Payload(log: seq<Rec>, rid: RecordId): seq<byte> {
    var row := Row(log, rid);
    if row.Some? && |row.value| >= HEADER_SIZE then row.value[HEADER_SIZE..] else []
  }

  /** The payload of the version found, if one is. */
  function PayloadOf(log: seq<Rec>, found: Option<nat>): Option<seq<byte>>
    requires found.Some? ==> found.value < |Born(log)|
  {
    match found
    case None => None
    case Some(m) => Some(Payload(log, Born(log)[m]))
  }

  /** Reading a row reads the version it is; reading what is no row reads nothing. */
  lemma {:induction false} ReadIsReadFrom(log: seq<Rec>, vs: seq<M.Version>, read: Reader, n: nat, snap: Snapshot,
                                          commits: CommitLog)
    requires StoreHistory(log) && vs == M.Fold(Versions(log, read)) && n < |Born(log)|
    ensures |vs| == |Born(log)|
    ensures S.ReadChain(log, Born(log)[n], snap, commits) == PayloadOf(log, M.ReadFrom(vs, n, snap, commits))
  {
    hide StoreHistory, Versions, M.Fold, Row, Visible, M.Root, FromLe, Decode6;
    RowsAreVersions(log, read);
    var rids := Born(log);
    hide Born;
    HeadIs(log, vs, rids, read, n);
    assert RowIs(log, vs, rids, read, n);
    hide Same, RowIs;
    var prev := Head(log, rids[n]).value.prev;
    if prev.Some? && !RowVisible(Row(log, rids[n]), snap, commits) {
      ReadIsReadFrom(log, vs, read, Name(rids, prev.value), snap, commits);
    }
  }

  lemma NoRowReadsNothing(log: seq<Rec>, rid: RecordId, snap: Snapshot, commits: CommitLog)
    requires StoreHistory(log) && rid !in Born(log)
    ensures S.ReadChain(log, rid, snap, commits) == None
  {
    hide StoreHistory, Row;
    RowsAreVersions(log, _ => 0);
  }

  /**
   * Wherever the version machine has come to, a transaction that reads the newest row of a chain gets the payload
   * of the row it sees.
   */
  lemma ReadNewestRow(steps: seq<M.Step>, s: M.State, t: TxnId, log: seq<Rec>, read: Reader, h: nat, u: nat)
    requires M.SoloRun(steps, s) && t in s.txns && s.txns[t].pc.Idle?
    requires StoreHistory(log) && Versions(log, read) == s.log
    requires h < |s.vs| && u < |s.vs| && M.Root(s.vs, u) == M.Root(s.vs, h) && M.Sees(s, t, u)
    requires forall n :: 0 <= n < |s.vs| && M.Root(s.vs, n) == M.Root(s.vs, h) ==> n <= h
    ensures |Born(log)| == |s.vs|
    ensures S.ReadChain(log, Born(log)[h], s.txns[t].snap, s.commits) == Some(Payload(log, Born(log)[u]))
  {
    hide StoreHistory, Versions, M.SoloRun, M.Root, M.Fold, M.Sees, M.ReadFrom, Born;
    M.ReadFromHead(steps, s, t, h, u);
    M.SoloRunInv(steps, s);
    assert s.vs == M.Fold(s.log);
    RowsAreVersions(log, read);
    ReadIsReadFrom(log, s.vs, read, h, s.txns[t].snap, s.commits);
  }

  // ----- After a crash -----

  /** The transaction that made the row committed, and none that committed replaced or deleted it. */
  ghost predicate Survives(log: seq<Rec>, rid: RecordId) {
    Head(log, rid).Some? && R.HasCommit(log, Head(log, rid).value.xmin) && !R.HasCommit(log, Head(log, rid).value.xmax)
  }

  /** To a transaction begun after recovery, the rows that survived are the visible ones. */
  lemma SurvivorsSeen(log: seq<Rec>, vs: seq<M.Version>, report: R.Report, snap: Snapshot, commits: CommitLog,
                      read: Reader, n: nat)
    requires StoreHistory(log) && R.ReportOk(log, report) && FreshAfter(report, snap, commits) && ChainedLog(log)
    requires vs == M.Fold(Versions(log, read)) && n < |Born(log)|
    ensures |vs| == |Born(log)| && (Survives(log, Born(log)[n]) <==> Visible(vs[n].xmin, vs[n].xmax, snap, commits))
    ensures Survives(log, Born(log)[n]) <==>
      M.Commit(vs[n].xmin) in Versions(log, read) && M.Commit(vs[n].xmax) !in Versions(log, read)
  {
    hide StoreHistory, R.ReportOk, FreshAfter, ChainedLog, Versions, M.Fold, M.LogOk, Row, Visible, FromLe, Decode6,
      R.HasCommit, R.HeapPages, LiveRow;
    RowsAreVersions(log, read);
    ChainedIff(log, read);
    var rids := Born(log);
    hide Born;
    HeadIs(log, vs, rids, read, n);
    assert RowIs(log, vs, rids, read, n);
    EndsAreEnds(log, read, vs[n].xmin);
    EndsAreEnds(log, read, vs[n].xmax);
    S.RowInHeap(log, rids[n]);
    var h := HeapOf(log, rids[n].page);
    var d := Row(log, rids[n]).value[HEADER_SIZE..];
    RecoveredRow(log, report, snap, commits, h, rids[n], d);
    LiveIff(log, vs, read, h, n, d);
    hide Same, RowIs, InHeap;
  }

  lemma HeapOf(log: seq<Rec>, p: PageId) returns (h: nat)
    requires InHeap(log, p)
    ensures p in R.HeapPages(log, h)
  {
    var i :| 0 <= i < |log| && log[i].payload.HeapPage? && log[i].payload.heapPage == p;
    h := log[i].payload.heap;
    assert log[i].payload == HeapPage(h, p);
    DirectoryPages(log, h, p);
  }

  /**
   * After recovery, a read of the newest row of a chain returns the payload of the row of that chain that survived,
   * and nothing if none did.
   */
  lemma RecoveredRead(log: seq<Rec>, vs: seq<M.Version>, report: R.Report, snap: Snapshot, commits: CommitLog,
                      read: Reader, h: nat, d: seq<byte>)
    requires StoreHistory(log) && R.ReportOk(log, report) && FreshAfter(report, snap, commits) && ChainedLog(log)
    requires vs == M.Fold(Versions(log, read)) && |vs| == |Born(log)| && h < |vs|
    requires forall n :: 0 <= n < |vs| && M.Root(vs, n) == M.Root(vs, h) ==> n <= h
    ensures S.ReadChain(log, Born(log)[h], snap, commits) == Some(d) <==>
      exists u :: 0 <= u < |vs| && M.Root(vs, u) == M.Root(vs, h) && Survives(log, Born(log)[u])
                  && d == Payload(log, Born(log)[u])
  {
    hide StoreHistory, R.ReportOk, FreshAfter, ChainedLog, Versions, M.Fold, M.LogOk, Visible, Survives, Payload,
      M.Root, Born;
    ReadIsReadFrom(log, vs, read, h, snap, commits);
    var found := M.ReadFrom(vs, h, snap, commits);
    if found.Some? {
      SurvivorsSeen(log, vs, report, snap, commits, read, found.value);
    }
    forall u | 0 <= u < |vs| && M.Root(vs, u) == M.Root(vs, h) && Survives(log, Born(log)[u]) ensures found == Some(u) {
      FindsSurvivor(log, vs, report, snap, commits, read, h, u);
    }
  }

  lemma FindsSurvivor(log: seq<Rec>, vs: seq<M.Version>, report: R.Report, snap: Snapshot, commits: CommitLog,
                      read: Reader, h: nat, u: nat)
    requires StoreHistory(log) && R.ReportOk(log, report) && FreshAfter(report, snap, commits) && ChainedLog(log)
    requires vs == M.Fold(Versions(log, read)) && |vs| == |Born(log)| && h < |vs|
    requires forall n :: 0 <= n < |vs| && M.Root(vs, n) == M.Root(vs, h) ==> n <= h
    requires u < |vs| && M.Root(vs, u) == M.Root(vs, h) && Survives(log, Born(log)[u])
    ensures M.ReadFrom(vs, h, snap, commits) == Some(u)
  {
    hide StoreHistory, R.ReportOk, FreshAfter, ChainedLog, Versions, M.Fold, M.LogOk, Visible, Survives, M.Root, Born,
      M.ReadFrom;
    var V := Versions(log, read);
    ChainedIff(log, read);
    M.LogOkWritten(V);
    SurvivorsSeen(log, vs, report, snap, commits, read, u);
    M.BegunReads(V, M.ReadOnly, h, u);
    var r := M.Begun(M.Recovered(V), M.ReadOnly);
    var snap', commits' := r.txns[r.next - 1].snap, r.commits;
    forall m | 0 <= m < |vs|
      ensures Visible(vs[m].xmin, vs[m].xmax, snap, commits) <==> Visible(vs[m].xmin, vs[m].xmax, snap', commits')
    {
      SurvivorsSeen(log, vs, report, snap, commits, read, m);
      M.BegunSees(V, M.ReadOnly, m);
    }
    hide M.Begun, M.Recovered;
    M.ReadFromSame(vs, h, snap, commits, snap', commits');
  }
}
