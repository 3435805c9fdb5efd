/** Snapshots, commit statuses and the snapshot-isolation visibility function. */
module Visibility {

  type TxnId = nat

  const NO_TXN: TxnId := 0
  const BOOTSTRAP_TXN: TxnId := 1
  const FIRST_USER_TXN: TxnId := 2

  datatype Status = InProgress | Committed | Aborted

  /** The commit log. A transaction it does not mention is in progress. */
  type CommitLog = map<TxnId, Status>

  function StatusOf(commits: CommitLog, t: TxnId): Status {
    if t in commits then commits[t] else InProgress
  }

  /** `xmax` is one past the highest id allocated, `active` the transactions then in progress. */
  datatype Snapshot = Snapshot(txnId: TxnId, xmax: TxnId, active: set<TxnId>)

  /** Whether the effects of transaction `t` are visible to `snap`. */
  predicate EffectVisible(t: TxnId, snap: Snapshot, commits: CommitLog) {
    if t == NO_TXN then false
    else if t == snap.txnId then true
    else if t >= snap.xmax then false
    else if t in snap.active then false
    else StatusOf(commits, t) == Committed
  }

  /** Whether a version created by `xmin` and deleted by `xmax` is visible to `snap`. */
  predicate Visible(xmin: TxnId, xmax: TxnId, snap: Snapshot, commits: CommitLog) {
    if !EffectVisible(xmin, snap, commits) then false
    else if xmax == NO_TXN then true
    else if EffectVisible(xmax, snap, commits) then false
    else true
  }

  /** First-committer-wins: the version must be visible and not stamped by anyone else. */
  predicate CheckWritable(xmin: TxnId, xmax: TxnId, snap: Snapshot, commits: CommitLog) {
    Visible(xmin, xmax, snap, commits) && !(xmax != NO_TXN && xmax != snap.txnId)
  }

  /**
   * `CheckWritable` compares the stamp with the caller's own id, but a version the caller
   * itself stamped is invisible to it, so only an unstamped version passes.
   */
  lemma WritableIsUnstamped(xmin: TxnId, xmax: TxnId, snap: Snapshot, commits: CommitLog)
    ensures CheckWritable(xmin, xmax, snap, commits)
       <==> EffectVisible(xmin, snap, commits) && xmax == NO_TXN
  {
  }
}
