/**
 * The transaction manager. `begin` allocates an id with an atomic counter and only afterwards takes
 * the active-set lock to register it and snapshot the others; the two steps are separate here, and
 * other transactions may run between them.
 */
module TxnManager {
  import opened Visibility

  /** `pending` holds the ids that have been allocated but not yet registered as active. */
  datatype Mgr = Mgr(next: TxnId, pending: set<TxnId>, active: set<TxnId>, commits: CommitLog)

  datatype Step =
    | Alloc
    | Register(t: TxnId)
    | RecordEnd(t: TxnId, commit: bool)
    | Leave(t: TxnId)

  predicate Enabled(m: Mgr, step: Step) {
    match step
    case Alloc => true
    case Register(t) => t in m.pending
    case RecordEnd(t, _) => t in m.active && t !in m.commits
    case Leave(t) => t in m.active && t in m.commits
  }

  function Do(m: Mgr, step: Step): Mgr
    requires Enabled(m, step)
  {
    match step
    case Alloc => m.(next := m.next + 1, pending := m.pending + {m.next})
    case Register(t) => m.(pending := m.pending - {t}, active := m.active + {t})
    case RecordEnd(t, commit) => m.(commits := m.commits[t := if commit then Committed else Aborted])
    case Leave(t) => m.(active := m.active - {t})
  }

  /** The snapshot the locked part of `begin` takes, in the state it runs in. */
  function TakeSnapshot(m: Mgr, t: TxnId): Snapshot {
    Snapshot(t, m.next, m.active)
  }

  ghost predicate Exec(m: Mgr, steps: seq<Step>, m': Mgr)
    decreases |steps|
  {
    if steps == [] then m == m'
    else Enabled(m, steps[0]) && Exec(Do(m, steps[0]), steps[1..], m')
  }

  ghost predicate Inv(m: Mgr) {
    && m.next >= FIRST_USER_TXN
    && (forall t :: t in m.pending ==> t !in m.active)
    && (forall t :: t in m.pending || t in m.active ==> FIRST_USER_TXN <= t < m.next)
    && (forall t :: t in m.pending ==> t !in m.commits)
    && (forall t :: t in m.commits ==> t < m.next)
  }

  const Init: Mgr := Mgr(FIRST_USER_TXN, {}, {}, map[BOOTSTRAP_TXN := Committed])

  lemma DoInv(m: Mgr, step: Step)
    requires Inv(m) && Enabled(m, step)
    ensures Inv(Do(m, step))
  {
  }

  lemma {:induction false} ExecInv(m: Mgr, steps: seq<Step>, m': Mgr)
    requires Inv(m) && Exec(m, steps, m')
    ensures Inv(m')
    decreases |steps|
  {
    if steps != [] {
      DoInv(m, steps[0]);
      ExecInv(Do(m, steps[0]), steps[1..], m');
    }
  }

  /** What `t`'s snapshot sees never changes, whatever the others do from here on. */
  ghost predicate StableFrom(snap: Snapshot, m: Mgr) {
    forall steps, m', x: TxnId :: Exec(m, steps, m') ==>
      EffectVisible(x, snap, m'.commits) == EffectVisible(x, snap, m.commits)
  }

  /** An id that is neither pending nor active stays so, and keeps whatever status it has. */
  lemma {:induction false} SettledKept(m: Mgr, steps: seq<Step>, m': Mgr, x: TxnId)
    requires Inv(m) && Exec(m, steps, m') && x < m.next && x !in m.pending && x !in m.active
    ensures StatusOf(m'.commits, x) == StatusOf(m.commits, x)
    ensures x < m'.next && x !in m'.pending && x !in m'.active
    decreases |steps|
  {
    if steps != [] {
      DoInv(m, steps[0]);
      SettledKept(Do(m, steps[0]), steps[1..], m', x);
    }
  }

  /** An id still pending when a snapshot is taken can commit later and appear in it. */
  lemma LateCommitAppears(m: Mgr, t: TxnId, p: TxnId) returns (steps: seq<Step>, m': Mgr)
    requires Inv(m) && Enabled(m, Register(t)) && p in m.pending && p != t
    ensures Exec(Do(m, Register(t)), steps, m')
    ensures !EffectVisible(p, TakeSnapshot(m, t), m.commits)
    ensures EffectVisible(p, TakeSnapshot(m, t), m'.commits)
  {
    var m0 := Do(m, Register(t));
    steps := [Register(p), RecordEnd(p, true)];
    var m1 := Do(m0, Register(p));
    m' := Do(m1, RecordEnd(p, true));
    assert steps[1..] == [RecordEnd(p, true)] && steps[1..][1..] == [];
    assert Exec(m1, steps[1..], m');
  }

  /**
   * Exactly when a snapshot is stable: no other transaction was between its two steps of `begin`
   * when the snapshot was taken. In every state reachable from a new or a recovered manager, both directions.
   */
  lemma SnapshotStableIff(start: Mgr, steps: seq<Step>, m: Mgr, t: TxnId)
    requires Inv(start) && Exec(start, steps, m) && Enabled(m, Register(t))
    ensures StableFrom(TakeSnapshot(m, t), Do(m, Register(t))) <==> m.pending == {t}
  {
    ExecInv(start, steps, m);
    var snap, m0 := TakeSnapshot(m, t), Do(m, Register(t));
    if m.pending == {t} {
      forall more, m', x: TxnId | Exec(m0, more, m')
        ensures EffectVisible(x, snap, m'.commits) == EffectVisible(x, snap, m0.commits)
      {
        if x < snap.xmax && x !in snap.active && x != t {
          SettledKept(m0, more, m', x);
        }
      }
    } else {
      var p :| p in m.pending && p != t;
      var more, m' := LateCommitAppears(m, t, p);
      assert EffectVisible(p, snap, m'.commits) != EffectVisible(p, snap, m0.commits);
    }
  }

  /** The smallest run that breaks stability: two begins overlap and the first commits. */
  lemma OverlappingBeginsBreakStability()
    ensures exists steps, m :: Exec(Init, steps, m) && Enabled(m, Register(3))
                               && !StableFrom(TakeSnapshot(m, 3), Do(m, Register(3)))
  {
    var steps := [Alloc, Alloc];
    var m := Do(Do(Init, Alloc), Alloc);
    assert steps[1..] == [Alloc] && steps[1..][1..] == [];
    assert Exec(Do(Init, Alloc), steps[1..], m);
    assert Exec(Init, steps, m);
    assert 2 in m.pending;
    SnapshotStableIff(Init, steps, m, 3);
  }

  ghost predicate Reaches(m: Mgr, m': Mgr) {
    exists steps :: Exec(m, steps, m')
  }

  /**
   * Whoever takes a snapshot later and comes to see `snap`'s own transaction sees, at any later time,
   * everything `snap` sees.
   */
  ghost predicate ClosedFrom(snap: Snapshot, m: Mgr) {
    forall m1, v, m2, u: TxnId ::
      Reaches(m, m1) && Enabled(m1, Register(v)) && Reaches(Do(m1, Register(v)), m2)
      && EffectVisible(snap.txnId, TakeSnapshot(m1, v), m2.commits) && EffectVisible(u, snap, m2.commits) ==>
        EffectVisible(u, TakeSnapshot(m1, v), m2.commits)
  }

  /** An id registered once is never pending again. */
  lemma {:induction false} RegisteredOnce(m: Mgr, steps: seq<Step>, m': Mgr, x: TxnId)
    requires Inv(m) && Exec(m, steps, m') && x < m.next && x !in m.pending
    ensures x < m'.next && x !in m'.pending
    decreases |steps|
  {
    if steps != [] {
      DoInv(m, steps[0]);
      RegisteredOnce(Do(m, steps[0]), steps[1..], m', x);
    }
  }

  lemma SeesThrough(m: Mgr, t: TxnId, m1: Mgr, v: TxnId, m2: Mgr, u: TxnId)
    requires Inv(m) && m.pending == {t} && Reaches(Do(m, Register(t)), m1) && Enabled(m1, Register(v))
    requires EffectVisible(t, TakeSnapshot(m1, v), m2.commits) && EffectVisible(u, TakeSnapshot(m, t), m2.commits)
    ensures EffectVisible(u, TakeSnapshot(m1, v), m2.commits)
  {
    var m0 := Do(m, Register(t));
    DoInv(m, Register(t));
    var steps :| Exec(m0, steps, m1);
    RegisteredOnce(m0, steps, m1, t);
    if u != t { SettledKept(m0, steps, m1, u); }
  }

  /**
   * An id still pending when `t` takes its snapshot can commit while `t` runs, so that `t` sees it, and
   * still be in the active set when the next snapshot is taken, which sees `t` but not it.
   */
  lemma SeenButNotThrough(m: Mgr, t: TxnId, p: TxnId)
    requires Inv(m) && Enabled(m, Register(t)) && p in m.pending && p != t
    ensures !ClosedFrom(TakeSnapshot(m, t), Do(m, Register(t)))
  {
    var snap, m0 := TakeSnapshot(m, t), Do(m, Register(t));
    var a := Do(m0, Register(p));
    var b := Do(a, RecordEnd(p, true));
    var c := Do(b, RecordEnd(t, true));
    var d := Do(c, Leave(t));
    var e := Do(d, Alloc);
    var v := d.next;
    ReachesSelf(e);
    ReachesFirst(d, Alloc, e);
    ReachesFirst(c, Leave(t), e);
    ReachesFirst(b, RecordEnd(t, true), e);
    ReachesFirst(a, RecordEnd(p, true), e);
    ReachesFirst(m0, Register(p), e);
    var m2 := Do(e, Register(v));
    ReachesSelf(m2);
    assert EffectVisible(snap.txnId, TakeSnapshot(e, v), m2.commits);
    assert EffectVisible(p, snap, m2.commits) && !EffectVisible(p, TakeSnapshot(e, v), m2.commits);
  }

  lemma ReachesSelf(m: Mgr)
    ensures Reaches(m, m)
  {
    assert Exec(m, [], m);
  }

  lemma ReachesFirst(m: Mgr, step: Step, m': Mgr)
    requires Enabled(m, step) && Reaches(Do(m, step), m')
    ensures Reaches(m, m')
  {
    var steps :| Exec(Do(m, step), steps, m');
    assert ([step] + steps)[1..] == steps;
    assert Exec(m, [step] + steps, m');
  }

  /**
   * Exactly when a snapshot is closed: seeing `t` means seeing everything `t` saw, for every later
   * snapshot in every run, if and only if no other `begin` was under way when `t` took its own.
   */
  lemma SnapshotClosedIff(start: Mgr, steps: seq<Step>, m: Mgr, t: TxnId)
    requires Inv(start) && Exec(start, steps, m) && Enabled(m, Register(t))
    ensures ClosedFrom(TakeSnapshot(m, t), Do(m, Register(t))) <==> m.pending == {t}
  {
    ExecInv(start, steps, m);
    var snap, m0 := TakeSnapshot(m, t), Do(m, Register(t));
    if m.pending == {t} {
      forall m1, v, m2, u: TxnId |
        Reaches(m0, m1) && Enabled(m1, Register(v)) && Reaches(Do(m1, Register(v)), m2)
        && EffectVisible(snap.txnId, TakeSnapshot(m1, v), m2.commits) && EffectVisible(u, snap, m2.commits)
        ensures EffectVisible(u, TakeSnapshot(m1, v), m2.commits)
      {
        SeesThrough(m, t, m1, v, m2, u);
      }
    } else {
      var p :| p in m.pending && p != t;
      SeenButNotThrough(m, t, p);
    }
  }

  // ----- The manager as an object -----

  datatype Mode = ReadWrite | ReadOnly

  datatype EndRecord = EndRecord(t: TxnId, commit: bool)

  /** The status recovery gives an id: durable Commit, explicit abort or loser, or unknown. */
  function RecoveredStatus(committed: set<TxnId>, aborted: set<TxnId>, t: TxnId): Status {
    if t in aborted then Aborted
    else if t in committed || t == BOOTSTRAP_TXN then Committed
    else InProgress
  }

  ghost predicate StatusesOf(m: CommitLog, committed: seq<TxnId>, aborted: seq<TxnId>) {
    && (forall t :: t in m <==> t == BOOTSTRAP_TXN || t in committed || t in aborted)
    && (forall t :: t in m ==> m[t] == if t in aborted then Aborted else Committed)
  }

  /** The manager `new_recovered` builds from a report. */
  ghost predicate RecoveredFrom(next: TxnId, committed: set<TxnId>, aborted: set<TxnId>, m: Mgr) {
    && m.next == (if next < FIRST_USER_TXN then FIRST_USER_TXN else next) && m.pending == {} && m.active == {}
    && (forall t :: t in m.commits <==> t == BOOTSTRAP_TXN || t in committed || t in aborted)
    && (forall t :: StatusOf(m.commits, t) == RecoveredStatus(committed, aborted, t))
  }

  /** It is a start like any other, if the report names only ids below the next one. */
  lemma RecoveredInv(next: TxnId, committed: set<TxnId>, aborted: set<TxnId>, m: Mgr)
    requires RecoveredFrom(next, committed, aborted, m) && forall t :: t in committed || t in aborted ==> t < next
    ensures Inv(m)
  {
  }

  class Manager {
    var nextTxn: TxnId
    var active: set<TxnId>
    var commitLog: CommitLog
    /** The end records appended to the WAL, and how many of them are known durable. */
    var log: seq<EndRecord>
    var durable: nat
    ghost var pending: set<TxnId>

    ghost function View(): Mgr
      reads this
    {
      Mgr(nextTxn, pending, active, commitLog)
    }

    constructor ()
      ensures View() == Init && log == [] && durable == 0
    {
      nextTxn, active, pending := FIRST_USER_TXN, {}, {};
      commitLog := map[BOOTSTRAP_TXN := Committed];
      log, durable := [], 0;
    }

    /** Resume from a recovery pass; an abort recorded for the same id wins. */
    constructor Recovered(next: TxnId, committed: seq<TxnId>, aborted: seq<TxnId>)
      ensures RecoveredFrom(next, (set t | t in committed), (set t | t in aborted), View())
      ensures log == [] && durable == 0
    {
      nextTxn := if next < FIRST_USER_TXN then FIRST_USER_TXN else next;
      active, pending := {}, {};
      log, durable := [], 0;
      var m: CommitLog := map[BOOTSTRAP_TXN := Committed];
      for i := 0 to |committed|
        invariant StatusesOf(m, committed[..i], [])
      {
        m := m[committed[i] := Committed];
        assert committed[..i + 1] == committed[..i] + [committed[i]];
      }
      assert committed[..|committed|] == committed;
      for i := 0 to |aborted|
        invariant StatusesOf(m, committed, aborted[..i])
      {
        m := m[aborted[i] := Aborted];
        assert aborted[..i + 1] == aborted[..i] + [aborted[i]];
      }
      assert aborted[..|aborted|] == aborted;
      commitLog := m;
    }

    /** The first step of `begin`. */
    method AllocId() returns (t: TxnId)
      modifies this`nextTxn, this`pending
      ensures t == old(nextTxn) && Enabled(old(View()), Alloc) && View() == Do(old(View()), Alloc)
    {
      t := nextTxn;
      nextTxn := nextTxn + 1;
      pending := pending + {t};
    }

    /** The second step of `begin`, under the active-set lock. */
    method RegisterId(t: TxnId) returns (snap: Snapshot)
      requires Enabled(View(), Register(t))
      modifies this`active, this`pending
      ensures snap == TakeSnapshot(old(View()), t) && View() == Do(old(View()), Register(t))
    {
      snap := Snapshot(t, nextTxn, active);
      active := active + {t};
      pending := pending - {t};
    }

    /** `commit_internal`: the Commit record is durable before the commit log and the active set change. */
    method CommitTxn(t: TxnId, mode: Mode)
      requires Enabled(View(), RecordEnd(t, true)) && durable <= |log|
      modifies this
      ensures var m := Do(old(View()), RecordEnd(t, true)); Enabled(m, Leave(t)) && View() == Do(m, Leave(t))
      ensures log == old(log) + (if mode == ReadWrite then [EndRecord(t, true)] else [])
      ensures durable <= |log| && (mode == ReadWrite ==> durable == |log|)
      ensures mode == ReadOnly ==> durable == old(durable)
    {
      if mode == ReadWrite {
        log := log + [EndRecord(t, true)];
        durable := |log|;
      }
      commitLog := commitLog[t := Committed];
      active := active - {t};
    }

    method AbortTxn(t: TxnId, mode: Mode)
      requires Enabled(View(), RecordEnd(t, false)) && durable <= |log|
      modifies this
      ensures var m := Do(old(View()), RecordEnd(t, false)); Enabled(m, Leave(t)) && View() == Do(m, Leave(t))
      ensures log == old(log) + (if mode == ReadWrite then [EndRecord(t, false)] else [])
      ensures durable <= |log| && (mode == ReadWrite ==> durable == |log|)
      ensures mode == ReadOnly ==> durable == old(durable)
    {
      if mode == ReadWrite {
        log := log + [EndRecord(t, false)];
        durable := |log|;
      }
      commitLog := commitLog[t := Aborted];
      active := active - {t};
    }
  }
}
