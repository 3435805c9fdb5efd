/**
 * The transactional store as a state machine: every interleaving of the atomic steps of
 * `insert`, `update`, `delete`, `begin`, `commit` and `abort`, with crashes and recovery.
 *
 * `begin` is two steps, as in the code: an id is allocated, and later it is registered and its
 * snapshot taken. What depends on snapshots alone holds of runs in which no id is registered while
 * another is still waiting to be; `Overlap` shows that it fails otherwise.
 *
 * A version is named by its birth number, the position of its Insert record among the Insert
 * records of the log. `update` and `delete` are not atomic: they lock, validate, insert and stamp in
 * separate steps, and other transactions may run between any two of them.
 */
module Mvcc {
  import opened Visibility
  import opened Options

  /** The payload of a version is opaque here; the bank reads it as a balance. */
  type Payload = int

  datatype Version = Version(xmin: TxnId, xmax: TxnId, prev: Option<nat>, data: Payload)

  datatype LogRecord =
    | Insert(txn: TxnId, prev: Option<nat>, data: Payload)
    | Stamp(txn: TxnId, target: nat, isDelete: bool)
    | Commit(txn: TxnId)
    | Abort(txn: TxnId)

  datatype Op = Update(data: Payload) | Delete

  /** How far a transaction has got inside the operation it is running. */
  datatype Pc =
    | Idle
    | Locked(target: nat, op: Op)
    | Validated(target: nat, op: Op)
    | Inserted(target: nat, newest: nat)
    | Ending(commit: bool, phase: Phase)

  datatype Phase = Logged | Flushed | Recorded | Released

  datatype Mode = ReadWrite | ReadOnly

  datatype Txn = Txn(snap: Snapshot, mode: Mode, pc: Pc)

  /**
   * `txns` holds the running transactions; its keys are the active set of the manager. `pending` holds
   * the ids allocated but not yet registered there.
   */
  datatype State = State(
    next: TxnId,
    pending: set<TxnId>,
    txns: map<TxnId, Txn>,
    commits: CommitLog,
    locks: map<nat, TxnId>,
    vs: seq<Version>,
    log: seq<LogRecord>,
    durable: nat)

  // ----- The log and what it replays to -----

  function Apply(vs: seq<Version>, r: LogRecord): seq<Version> {
    match r
    case Insert(t, prev, data) => vs + [Version(t, NO_TXN, prev, data)]
    case Stamp(t, i, _) => if i < |vs| then vs[i := vs[i].(xmax := t)] else vs
    case Commit(_) => vs
    case Abort(_) => vs
  }

  function Fold(log: seq<LogRecord>): seq<Version> {
    if log == [] then [] else Apply(Fold(log[..|log| - 1]), log[|log| - 1])
  }

  function MaxTxn(log: seq<LogRecord>): TxnId {
    if log == [] then BOOTSTRAP_TXN
    else var m := MaxTxn(log[..|log| - 1]); if m < log[|log| - 1].txn then log[|log| - 1].txn else m
  }

  predicate Ended(log: seq<LogRecord>, t: TxnId) {
    Commit(t) in log || Abort(t) in log
  }

  // ----- Steps -----

  datatype Step =
    | Alloc
    | Register(t: TxnId, mode: Mode)
    | DoInsert(t: TxnId, data: Payload)
    | Lock(t: TxnId, target: nat, op: Op)
    | Validate(t: TxnId)
    | Refuse(t: TxnId)
    | InsertNew(t: TxnId)
    | DoStamp(t: TxnId)
    | LogEnd(t: TxnId, commit: bool)
    | Flush(t: TxnId)
    | RecordEnd(t: TxnId)
    | Release(t: TxnId)
    | Leave(t: TxnId)
    | Crash(keep: nat)

  predicate Running(s: State, t: TxnId) {
    t in s.txns
  }

  /** What the code lets a transaction do; nothing looks at its mode. */
  predicate Possible(s: State, step: Step) {
    match step
    case Alloc => true
    case Register(t, _) => t in s.pending
    case DoInsert(t, _) => Running(s, t) && s.txns[t].pc.Idle?
    case Lock(t, i, _) =>
      Running(s, t) && s.txns[t].pc.Idle? && (i in s.locks ==> s.locks[i] == t)
    case Validate(t) => Running(s, t) && s.txns[t].pc.Locked?
    // The new version fits no page: the update returns an error and the transaction goes on.
    case Refuse(t) => Running(s, t) && s.txns[t].pc.Validated? && s.txns[t].pc.op.Update?
    case InsertNew(t) => Running(s, t) && s.txns[t].pc.Validated? && s.txns[t].pc.op.Update?
    case DoStamp(t) =>
      && Running(s, t)
      && ((s.txns[t].pc.Validated? && s.txns[t].pc.op.Delete?) || s.txns[t].pc.Inserted?)
    // Commit is called between operations; abort may also follow an I/O failure inside one.
    case LogEnd(t, commit) =>
      Running(s, t) && !s.txns[t].pc.Ending? && (commit ==> s.txns[t].pc.Idle?)
    case Flush(t) => Running(s, t) && s.txns[t].pc.Ending? && s.txns[t].pc.phase == Logged
    case RecordEnd(t) => Running(s, t) && s.txns[t].pc.Ending? && s.txns[t].pc.phase == Flushed
    case Release(t) => Running(s, t) && s.txns[t].pc.Ending? && s.txns[t].pc.phase == Recorded
    case Leave(t) => Running(s, t) && s.txns[t].pc.Ending? && s.txns[t].pc.phase == Released
    case Crash(keep) => s.durable <= keep <= |s.log|
  }

  /** Writes go through read-write handles. */
  predicate Proper(s: State, step: Step) {
    (step.DoInsert? || step.Lock?) && step.t in s.txns ==> s.txns[step.t].mode == ReadWrite
  }

  predicate Enabled(s: State, step: Step) {
    Possible(s, step) && Proper(s, step)
  }

  function SetPc(s: State, t: TxnId, pc: Pc): State
    requires t in s.txns
  {
    s.(txns := s.txns[t := s.txns[t].(pc := pc)])
  }

  function Append(s: State, r: LogRecord): State {
    s.(log := s.log + [r], vs := Apply(s.vs, r))
  }

  /** The snapshot the locked part of `begin` takes, in the state it runs in. */
  function TakeSnapshot(s: State, t: TxnId): Snapshot {
    Snapshot(t, s.next, s.txns.Keys)
  }

  /** Recovery: the commit statuses the durable log determines. */
  function RecoveredCommits(log: seq<LogRecord>): CommitLog {
    map t: TxnId | 0 < t <= MaxTxn(log)
      && (t == BOOTSTRAP_TXN || Commit(t) in log || HasData(log, t) || Abort(t) in log)
      :: if Abort(t) in log then Aborted
         else if Commit(t) in log || t == BOOTSTRAP_TXN then Committed
         else Aborted
  }

  predicate HasData(log: seq<LogRecord>, t: TxnId) {
    exists j :: 0 <= j < |log| && (log[j].Insert? || log[j].Stamp?) && log[j].txn == t
  }

  /** What `recover` and `new_recovered` rebuild from a durable log. */
  function Recovered(log: seq<LogRecord>): State {
    var top := MaxTxn(log) + 1;
    State(if top < FIRST_USER_TXN then FIRST_USER_TXN else top,
          {}, map[], RecoveredCommits(log), map[], Fold(log), log, |log|)
  }

  function Do(s: State, step: Step): State
    requires Possible(s, step)
  {
    match step
    case Alloc => s.(next := s.next + 1, pending := s.pending + {s.next})
    case Register(t, mode) =>
      s.(pending := s.pending - {t}, txns := s.txns[t := Txn(TakeSnapshot(s, t), mode, Idle)])
    case DoInsert(t, data) => Append(s, Insert(t, None, data))
    case Lock(t, i, op) => SetPc(s.(locks := s.locks[i := t]), t, Locked(i, op))
    case Validate(t) =>
      var pc := s.txns[t].pc;
      var i := pc.target;
      if i < |s.vs| && CheckWritable(s.vs[i].xmin, s.vs[i].xmax, s.txns[t].snap, s.commits)
      then SetPc(s, t, Validated(i, pc.op))
      else SetPc(s, t, Idle)
    case Refuse(t) => SetPc(s, t, Idle)
    case InsertNew(t) =>
      var pc := s.txns[t].pc;
      SetPc(Append(s, Insert(t, Some(pc.target), pc.op.data)), t, Inserted(pc.target, |s.vs|))
    case DoStamp(t) =>
      var pc := s.txns[t].pc;
      SetPc(Append(s, Stamp(t, pc.target, pc.Validated?)), t, Idle)
    case LogEnd(t, commit) =>
      var s' := if s.txns[t].mode == ReadOnly then s
                else Append(s, if commit then Commit(t) else Abort(t));
      SetPc(s', t, Ending(commit, Logged))
    case Flush(t) =>
      // Read-only transactions write no record and flush nothing.
      var s' := if s.txns[t].mode == ReadOnly then s else s.(durable := |s.log|);
      SetPc(s', t, Ending(s.txns[t].pc.commit, Flushed))
    case RecordEnd(t) =>
      var commit := s.txns[t].pc.commit;
      SetPc(s.(commits := s.commits[t := if commit then Committed else Aborted]), t, Ending(commit, Recorded))
    case Release(t) =>
      SetPc(s.(locks := map i | i in s.locks && s.locks[i] != t :: s.locks[i]),
            t, Ending(s.txns[t].pc.commit, Released))
    case Leave(t) => s.(txns := s.txns - {t})
    case Crash(keep) => Recovered(s.log[..keep])
  }

  const Init: State := State(FIRST_USER_TXN, {}, map[], map[BOOTSTRAP_TXN := Committed], map[], [], [], 0)

  /** Both steps of a `begin`, one right after the other. */
  function Begun(s: State, mode: Mode): State {
    Do(Do(s, Alloc), Register(s.next, mode))
  }

  /** `s'` is what the steps lead to from `s`, each enabled where it is taken. */
  ghost predicate Exec(s: State, steps: seq<Step>, s': State) {
    if steps == [] then s == s'
    else
      var last := |steps| - 1;
      exists p :: Exec(s, steps[..last], p) && Enabled(p, steps[last]) && Do(p, steps[last]) == s'
  }

  ghost predicate Run(steps: seq<Step>, s: State) {
    Exec(Init, steps, s)
  }

  /** Nobody else is between the two steps of `begin` when a transaction is registered. */
  predicate Alone(s: State, step: Step) {
    step.Register? ==> s.pending == {step.t}
  }

  /** A run whose begins do not overlap. */
  ghost predicate SoloExec(s: State, steps: seq<Step>, s': State) {
    if steps == [] then s == s'
    else
      var last := |steps| - 1;
      exists p :: SoloExec(s, steps[..last], p) && Enabled(p, steps[last]) && Alone(p, steps[last])
                  && Do(p, steps[last]) == s'
  }

  ghost predicate SoloRun(steps: seq<Step>, s: State) {
    SoloExec(Init, steps, s)
  }

  // ----- What every run keeps -----

  /** Whether transaction `t` may build on the work of `c`, judging by the log alone. */
  predicate MayUse(log: seq<LogRecord>, t: TxnId, c: TxnId) {
    c == t || Commit(c) in log
  }

  /** A version is linked when its creator has stamped the version it replaces. */
  predicate Linked(vs: seq<Version>, n: nat)
    requires n < |vs|
  {
    vs[n].prev.Some? ==> vs[n].prev.value < n && vs[vs[n].prev.value].xmax == vs[n].xmin
  }

  /** If `t` has replaced `i`, its version is the newest to do so. */
  ghost predicate NewestOf(vs: seq<Version>, i: nat, t: TxnId) {
    forall n, m :: 0 <= n < |vs| && 0 <= m < |vs| && vs[n].prev == Some(i) == vs[m].prev && vs[n].xmin == t ==> m <= n
  }

  /** What each record requires of the records before it. */
  ghost predicate RecordOk(pre: seq<LogRecord>, r: LogRecord) {
    var vs := Fold(pre);
    && r.txn >= FIRST_USER_TXN
    && !Ended(pre, r.txn)
    && match r
       case Insert(t, prev, _) =>
         prev.Some? ==>
           && prev.value < |vs|
           && vs[prev.value].xmax == NO_TXN
           && MayUse(pre, t, vs[prev.value].xmin)
           && Linked(vs, prev.value)
           && forall n :: 0 <= n < |vs| && vs[n].prev == prev ==> vs[n].xmin != t
       case Stamp(t, i, _) =>
         && i < |vs| && vs[i].xmax == NO_TXN && MayUse(pre, t, vs[i].xmin)
         && NewestOf(vs, i, t)
       case Commit(t) =>
         forall n :: 0 <= n < |vs| && vs[n].xmin == t ==> Linked(vs, n)
       case Abort(_) => true
  }

  /** The part of it that does not ask who has committed. */
  ghost predicate WrittenOk(pre: seq<LogRecord>, r: LogRecord) {
    && r.txn >= FIRST_USER_TXN && !Ended(pre, r.txn)
    && (r.Insert? && r.prev.Some? ==> r.prev.value < |Fold(pre)|)
    && (r.Stamp? ==> r.target < |Fold(pre)| && Fold(pre)[r.target].xmax == NO_TXN)
  }

  ghost predicate LogWritten(log: seq<LogRecord>) {
    forall j :: 0 <= j < |log| ==> WrittenOk(log[..j], log[j])
  }

  /** Closed under prefixes, hence what any crash leaves still satisfies it. */
  ghost predicate LogOk(log: seq<LogRecord>) {
    forall j :: 0 <= j < |log| ==> RecordOk(log[..j], log[j])
  }

  predicate DurablyCommitted(s: State, t: TxnId) {
    s.durable <= |s.log| && Commit(t) in s.log[..s.durable]
  }

  /** Ids the snapshot treats as over: their outcome, not their progress, decides visibility. */
  predicate Over(snap: Snapshot, t: TxnId) {
    t < snap.xmax && t !in snap.active
  }

  ghost predicate TxnOk(s: State, t: TxnId)
    requires t in s.txns
  {
    var x := s.txns[t];
    && FIRST_USER_TXN <= t < s.next
    && x.snap.txnId == t && t < x.snap.xmax <= s.next && t !in x.snap.active
    && (x.mode == ReadOnly ==> x.pc.Idle? || x.pc.Ending?)
    && (x.mode == ReadOnly ==> forall j :: 0 <= j < |s.log| ==> s.log[j].txn != t)
    && (!x.pc.Ending? ==> !Ended(s.log, t) && StatusOf(s.commits, t) != Committed)
    && (x.pc.Ending? && !x.pc.commit ==> Commit(t) !in s.log && StatusOf(s.commits, t) != Committed)
    && (x.pc.Ending? && x.pc.commit && x.mode == ReadWrite ==> Commit(t) in s.log)
    && (x.pc.Ending? && x.pc.commit && x.mode == ReadWrite && x.pc.phase != Logged ==>
          DurablyCommitted(s, t))
    && (x.pc.Ending? && x.pc.commit && x.pc.phase !in {Logged, Flushed} ==>
          StatusOf(s.commits, t) == Committed)
    && (x.pc.Locked? || x.pc.Validated? || x.pc.Inserted? ==>
          x.pc.target in s.locks && s.locks[x.pc.target] == t)
    && (x.pc.Validated? || x.pc.Inserted? ==>
          && x.pc.target < |s.vs|
          && s.vs[x.pc.target].xmax == NO_TXN
          && EffectVisible(s.vs[x.pc.target].xmin, x.snap, s.commits))
    && (x.pc.Inserted? ==>
          && x.pc.target < x.pc.newest < |s.vs|
          && s.vs[x.pc.newest].xmin == t && s.vs[x.pc.newest].prev == Some(x.pc.target)
          && forall m :: 0 <= m < |s.vs| && s.vs[m].prev == Some(x.pc.target) ==> m <= x.pc.newest)
  }

  /** Ids that have been allocated and nothing else. */
  ghost predicate PendingOk(s: State) {
    forall p :: p in s.pending ==>
      && FIRST_USER_TXN <= p < s.next && p !in s.txns && p !in s.commits
      && forall j :: 0 <= j < |s.log| ==> s.log[j].txn != p
  }

  /** `t` has built on a version that `c` created, by replacing it or by stamping it. */
  ghost predicate Uses(vs: seq<Version>, t: TxnId, c: TxnId) {
    || (exists p :: 0 <= p < |vs| && vs[p].xmin == c && vs[p].xmax == t)
    || (exists n :: 0 <= n < |vs| && vs[n].xmin == t && vs[n].prev.Some?
                    && vs[n].prev.value < |vs| && vs[vs[n].prev.value].xmin == c)
  }

  /** No id whose work is still to come is over for `t`. */
  ghost predicate Settled(s: State, t: TxnId)
    requires t in s.txns
  {
    forall u :: (u in s.txns || u in s.pending) && u != t ==> !Over(s.txns[t].snap, u)
  }

  /** `c` is over, and over for every snapshot that counts `t` as over. */
  ghost predicate Behind(s: State, t: TxnId, c: TxnId) {
    c !in s.txns && forall u :: u in s.txns && Over(s.txns[u].snap, t) ==> Over(s.txns[u].snap, c)
  }

  /** Whatever a transaction built on was over before any snapshot that counts it as over. */
  ghost predicate Closed(s: State) {
    forall t, c :: Uses(s.vs, t, c) && t != NO_TXN && c != t ==> Behind(s, t, c)
  }

  /** Only a transaction cut off between insert and stamp leaves an unlinked version. */
  ghost predicate UnlinkedOk(s: State) {
    forall n :: 0 <= n < |s.vs| && !Linked(s.vs, n) ==>
      var t := s.vs[n].xmin;
      && Commit(t) !in s.log
      && (t in s.txns ==> (s.txns[t].pc.Ending? && !s.txns[t].pc.commit)
                          || (s.txns[t].pc.Inserted? && s.txns[t].pc.newest == n))
  }

  /** The commit log and the Commit records of the log agree, up to transactions still ending. */
  ghost predicate CommitsOk(s: State) {
    && (forall t :: StatusOf(s.commits, t) == Committed ==>
          DurablyCommitted(s, t) || forall j :: 0 <= j < |s.log| ==> s.log[j].txn != t)
    && (forall t :: Commit(t) in s.log && t !in s.txns ==> StatusOf(s.commits, t) == Committed)
  }

  /** What every run keeps, whether or not begins overlap. */
  ghost predicate Inv(s: State) {
    && LogOk(s.log)
    && s.vs == Fold(s.log)
    && s.durable <= |s.log|
    && s.next >= FIRST_USER_TXN
    && (forall j :: 0 <= j < |s.log| ==> s.log[j].txn < s.next)
    && (forall t :: t in s.commits ==> t < s.next)
    && (forall t :: t in s.txns ==> TxnOk(s, t))
    && PendingOk(s)
    && UnlinkedOk(s)
    && CommitsOk(s)
  }

  /** What runs without overlapping begins keep besides. */
  ghost predicate Apart(s: State) {
    Closed(s) && forall t :: t in s.txns ==> Settled(s, t)
  }

  // ----- Facts about the log -----

  lemma FoldAppend(log: seq<LogRecord>, r: LogRecord)
    ensures Fold(log + [r]) == Apply(Fold(log), r)
  {
    assert (log + [r])[..|log|] == log;
  }

  lemma LogOkAppend(log: seq<LogRecord>, r: LogRecord)
    requires LogOk(log) && RecordOk(log, r)
    ensures LogOk(log + [r])
  {
    forall j | 0 <= j < |log + [r]| ensures RecordOk((log + [r])[..j], (log + [r])[j]) {
      if j < |log| {
        assert (log + [r])[..j] == log[..j];
      } else {
        assert (log + [r])[..j] == log;
      }
    }
  }

  lemma LogOkPrefix(log: seq<LogRecord>, k: nat)
    requires LogOk(log) && k <= |log|
    ensures LogOk(log[..k])
  {
    forall j | 0 <= j < k ensures RecordOk(log[..k][..j], log[..k][j]) {
      assert log[..k][..j] == log[..j];
    }
  }

  /** Creators and stampers of versions come from the log, and predecessors are older. */
  ghost predicate FromLog(log: seq<LogRecord>, v: Version, n: nat) {
    && (exists j :: 0 <= j < |log| && log[j].Insert? && log[j].txn == v.xmin)
    && (v.prev.Some? ==> v.prev.value < n)
    && (v.xmax != NO_TXN ==> exists j :: 0 <= j < |log| && log[j].Stamp? && log[j].txn == v.xmax)
  }

  lemma FromLogAppend(log: seq<LogRecord>, r: LogRecord, v: Version, n: nat)
    requires FromLog(log, v, n)
    ensures FromLog(log + [r], v, n)
  {
    var j :| 0 <= j < |log| && log[j].Insert? && log[j].txn == v.xmin;
    assert (log + [r])[j] == log[j];
    if v.xmax != NO_TXN {
      var i :| 0 <= i < |log| && log[i].Stamp? && log[i].txn == v.xmax;
      assert (log + [r])[i] == log[i];
    }
  }

  lemma LogOkWritten(log: seq<LogRecord>)
    requires LogOk(log)
    ensures LogWritten(log)
  {
    forall j | 0 <= j < |log| ensures WrittenOk(log[..j], log[j]) {
      assert RecordOk(log[..j], log[j]);
    }
  }

  lemma LogWrittenPrefix(log: seq<LogRecord>, k: nat)
    requires LogWritten(log) && k <= |log|
    ensures LogWritten(log[..k])
  {
    forall j | 0 <= j < k ensures WrittenOk(log[..k][..j], log[..k][j]) {
      assert log[..k][..j] == log[..j];
    }
  }

  lemma {:induction false} WrittenFacts(log: seq<LogRecord>)
    requires LogWritten(log)
    ensures forall n :: 0 <= n < |Fold(log)| ==> FromLog(log, Fold(log)[n], n)
  {
    if log != [] {
      var k := |log| - 1;
      var pre, r := log[..k], log[k];
      LogWrittenPrefix(log, k);
      WrittenFacts(pre);
      assert WrittenOk(pre, r);
      assert log == pre + [r];
      assert log[k] == r;
      forall n | 0 <= n < |Fold(log)| ensures FromLog(log, Fold(log)[n], n) {
        if n < |Fold(pre)| {
          FromLogAppend(pre, r, Fold(pre)[n], n);
        }
      }
    }
  }

  lemma FoldFacts(log: seq<LogRecord>)
    requires LogOk(log)
    ensures forall n :: 0 <= n < |Fold(log)| ==> FromLog(log, Fold(log)[n], n)
  {
    LogOkWritten(log);
    WrittenFacts(log);
  }

  // ----- Steps that leave the log alone -----

  lemma SetPcKeepsDurable(s: State, t: TxnId, s': State)
    requires s'.log == s.log && s'.durable == s.durable
    ensures forall u :: DurablyCommitted(s, u) == DurablyCommitted(s', u)
  {
  }

  lemma SetPcTxn(s: State, t: TxnId, pc: Pc, u: TxnId)
    requires t in s.txns && u in s.txns && u != t && TxnOk(s, u)
    ensures TxnOk(SetPc(s, t, pc), u)
  {
    SetPcKeepsDurable(s, t, SetPc(s, t, pc));
  }

  lemma SetPcCommits(s: State, t: TxnId, pc: Pc)
    requires t in s.txns && CommitsOk(s)
    ensures CommitsOk(SetPc(s, t, pc))
  {
    SetPcKeepsDurable(s, t, SetPc(s, t, pc));
  }

  lemma SetPcUnlinked(s: State, t: TxnId, pc: Pc)
    requires t in s.txns && UnlinkedOk(s) && !s.txns[t].pc.Inserted? && !s.txns[t].pc.Ending?
    ensures UnlinkedOk(SetPc(s, t, pc))
  {
  }

  lemma KeepAlloc(s: State)
    requires Inv(s)
    ensures Inv(Do(s, Alloc))
  {
    var s' := Do(s, Alloc);
    SetPcKeepsDurable(s, s.next, s');
    assert UnlinkedOk(s') && CommitsOk(s') by { hide TxnOk, LogOk, Fold; }
    forall t | t in s'.txns ensures TxnOk(s', t) {
      assert TxnOk(s, t);
    }
  }

  lemma RegisterTxn(s: State, t: TxnId, mode: Mode, u: TxnId)
    requires Inv(s) && Enabled(s, Register(t, mode)) && u in Do(s, Register(t, mode)).txns
    ensures TxnOk(Do(s, Register(t, mode)), u)
  {
    hide LogOk, Fold, UnlinkedOk;
    var s' := Do(s, Register(t, mode));
    SetPcKeepsDurable(s, t, s');
    if u in s.txns { assert TxnOk(s, u); }
  }

  lemma RegisterUnlinked(s: State, t: TxnId, mode: Mode)
    requires Inv(s) && Enabled(s, Register(t, mode))
    ensures UnlinkedOk(Do(s, Register(t, mode)))
  {
    hide LogOk, Fold, CommitsOk, TxnOk;
    FoldFacts(s.log);
    assert forall n :: 0 <= n < |s.vs| ==> FromLog(s.log, s.vs[n], n);
  }

  lemma KeepRegister(s: State, t: TxnId, mode: Mode)
    requires Inv(s) && Enabled(s, Register(t, mode))
    ensures Inv(Do(s, Register(t, mode)))
  {
    hide LogOk, Fold, TxnOk, UnlinkedOk;
    var s' := Do(s, Register(t, mode));
    RegisterUnlinked(s, t, mode);
    SetPcKeepsDurable(s, t, s');
    forall u | u in s'.txns ensures TxnOk(s', u) {
      RegisterTxn(s, t, mode, u);
    }
  }

  lemma KeepLock(s: State, t: TxnId, i: nat, op: Op)
    requires Inv(s) && Enabled(s, Lock(t, i, op))
    ensures Inv(Do(s, Lock(t, i, op)))
  {
    hide TxnOk, LogOk, Fold;
    var s' := Do(s, Lock(t, i, op));
    SetPcKeepsDurable(s, t, s');
    forall u | u in s'.txns ensures TxnOk(s', u) {
      LockTxn(s, t, i, op, u);
    }
  }

  lemma LockTxn(s: State, t: TxnId, i: nat, op: Op, u: TxnId)
    requires Inv(s) && Enabled(s, Lock(t, i, op)) && u in s.txns
    ensures TxnOk(Do(s, Lock(t, i, op)), u)
  {
    hide LogOk, Fold, CommitsOk, UnlinkedOk, PendingOk;
    SetPcKeepsDurable(s, t, Do(s, Lock(t, i, op)));
    assert TxnOk(s, u);
  }

  lemma ValidateTxn(s: State, t: TxnId, u: TxnId)
    requires Inv(s) && Enabled(s, Validate(t)) && u in s.txns
    ensures TxnOk(Do(s, Validate(t)), u)
  {
    assert TxnOk(s, u);
    if u != t { SetPcTxn(s, t, Do(s, Validate(t)).txns[t].pc, u); }
  }

  lemma KeepValidate(s: State, t: TxnId)
    requires Inv(s) && Enabled(s, Validate(t))
    ensures Inv(Do(s, Validate(t)))
  {
    var pc := Do(s, Validate(t)).txns[t].pc;
    SetPcCommits(s, t, pc);
    SetPcUnlinked(s, t, pc);
    forall u | u in s.txns ensures TxnOk(Do(s, Validate(t)), u) {
      ValidateTxn(s, t, u);
    }
  }

  lemma KeepRefuse(s: State, t: TxnId)
    requires Inv(s) && Enabled(s, Refuse(t))
    ensures Inv(Do(s, Refuse(t)))
  {
    SetPcCommits(s, t, Idle);
    SetPcUnlinked(s, t, Idle);
    forall u | u in s.txns ensures TxnOk(Do(s, Refuse(t)), u) {
      assert TxnOk(s, u);
      if u != t { SetPcTxn(s, t, Idle, u); }
    }
  }

  lemma FlushKeepsDurable(s: State, s': State)
    requires s'.log == s.log && s.durable <= |s.log| && (s'.durable == |s.log| || s'.durable == s.durable)
    ensures forall u :: DurablyCommitted(s, u) ==> DurablyCommitted(s', u)
    ensures s'.durable == |s.log| ==> forall u :: Commit(u) in s.log ==> DurablyCommitted(s', u)
  {
    assert s.log[..|s.log|] == s.log;
  }

  lemma KeepFlush(s: State, t: TxnId)
    requires Inv(s) && Enabled(s, Flush(t))
    ensures Inv(Do(s, Flush(t)))
  {
    hide TxnOk, LogOk, Fold, CommitsOk, UnlinkedOk;
    FlushRest(s, t);
    var s' := Do(s, Flush(t));
    forall u | u in s'.txns ensures TxnOk(s', u) {
      FlushTxn(s, t, u);
    }
  }

  lemma FlushRest(s: State, t: TxnId)
    requires Inv(s) && Enabled(s, Flush(t))
    ensures var s' := Do(s, Flush(t)); UnlinkedOk(s') && CommitsOk(s')
  {
    hide TxnOk, LogOk, Fold, Linked;
    FlushKeepsDurable(s, Do(s, Flush(t)));
  }

  lemma FlushTxn(s: State, t: TxnId, u: TxnId)
    requires Inv(s) && Enabled(s, Flush(t)) && u in s.txns
    ensures TxnOk(Do(s, Flush(t)), u)
  {
    hide LogOk, Fold, CommitsOk, UnlinkedOk, PendingOk;
    FlushKeepsDurable(s, Do(s, Flush(t)));
    assert TxnOk(s, u);
  }

  lemma RecordEndTxn(s: State, t: TxnId, u: TxnId)
    requires Inv(s) && Enabled(s, RecordEnd(t)) && u in s.txns
    ensures TxnOk(Do(s, RecordEnd(t)), u)
  {
    assert TxnOk(s, u) && TxnOk(s, t);
    var s' := Do(s, RecordEnd(t));
    assert DurablyCommitted(s, u) == DurablyCommitted(s', u);
  }

  lemma RecordEndCommits(s: State, t: TxnId)
    requires Inv(s) && Enabled(s, RecordEnd(t))
    ensures CommitsOk(Do(s, RecordEnd(t)))
  {
    var s' := Do(s, RecordEnd(t));
    assert TxnOk(s, t);
    forall u | StatusOf(s'.commits, u) == Committed
      ensures DurablyCommitted(s', u) || forall j :: 0 <= j < |s'.log| ==> s'.log[j].txn != u
    {
      assert DurablyCommitted(s, u) == DurablyCommitted(s', u);
    }
  }

  lemma KeepRecordEnd(s: State, t: TxnId)
    requires Inv(s) && Enabled(s, RecordEnd(t))
    ensures Inv(Do(s, RecordEnd(t)))
  {
    var s' := Do(s, RecordEnd(t));
    RecordEndCommits(s, t);
    forall u | u in s'.txns ensures TxnOk(s', u) {
      RecordEndTxn(s, t, u);
    }
    assert TxnOk(s, t);
  }

  lemma KeepRelease(s: State, t: TxnId)
    requires Inv(s) && Enabled(s, Release(t))
    ensures Inv(Do(s, Release(t)))
  {
    hide LogOk, Fold, TxnOk;
    var s' := Do(s, Release(t));
    forall u | u in s'.txns ensures TxnOk(s', u) {
      ReleaseTxn(s, t, u);
    }
  }

  lemma ReleaseTxn(s: State, t: TxnId, u: TxnId)
    requires Inv(s) && Enabled(s, Release(t)) && u in s.txns
    ensures TxnOk(Do(s, Release(t)), u)
  {
    hide LogOk, Fold, CommitsOk, UnlinkedOk, PendingOk;
    assert TxnOk(s, u) && TxnOk(s, t);
  }

  lemma KeepLeave(s: State, t: TxnId)
    requires Inv(s) && Enabled(s, Leave(t))
    ensures Inv(Do(s, Leave(t)))
  {
    var s' := Do(s, Leave(t));
    forall u | u in s'.txns ensures TxnOk(s', u) {
      assert TxnOk(s, u);
    }
  }

  // ----- Steps that append to the log -----

  /** A running transaction that sees a version's creator may, by the log, build on it. */
  lemma SeenMayBeUsed(s: State, t: TxnId, i: nat)
    requires Inv(s) && t in s.txns && i < |s.vs|
    requires EffectVisible(s.vs[i].xmin, s.txns[t].snap, s.commits)
    ensures MayUse(s.log, t, s.vs[i].xmin)
  {
    assert TxnOk(s, t);
    FoldFacts(s.log);
    assert FromLog(s.log, s.vs[i], i);
    var c := s.vs[i].xmin;
    if c != t {
      assert StatusOf(s.commits, c) == Committed;
      assert DurablyCommitted(s, c);
    }
  }

  lemma AppendKeepsDurable(s: State, r: LogRecord)
    requires s.durable <= |s.log|
    ensures forall u :: DurablyCommitted(s, u) == DurablyCommitted(Append(s, r), u)
  {
    assert (s.log + [r])[..s.durable] == s.log[..s.durable];
  }

  /** What appending a data record of `t` does to the other running transactions. */
  lemma AppendTxn(s: State, r: LogRecord, u: TxnId)
    requires Inv(s) && u in s.txns && r.txn in s.txns && u != r.txn
    requires r.Stamp? ==> r.target in s.locks && s.locks[r.target] == r.txn
    requires r.Insert? && r.prev.Some? ==> r.prev.value in s.locks && s.locks[r.prev.value] == r.txn
    ensures TxnOk(Append(s, r), u)
  {
    assert TxnOk(s, u);
    AppendKeepsDurable(s, r);
  }

  lemma UsesAfterInsert(vs: seq<Version>, v: Version, t: TxnId, c: TxnId)
    requires forall n :: 0 <= n < |vs| && vs[n].prev.Some? ==> vs[n].prev.value < n
    requires v.xmax == NO_TXN && t != NO_TXN && Uses(vs + [v], t, c)
    requires v.prev.Some? ==> v.prev.value < |vs|
    ensures Uses(vs, t, c) || (t == v.xmin && v.prev.Some? && vs[v.prev.value].xmin == c)
  {
    var vs' := vs + [v];
    if p :| 0 <= p < |vs'| && vs'[p].xmin == c && vs'[p].xmax == t {
      assert vs[p] == vs'[p];
    } else {
      var n :| 0 <= n < |vs'| && vs'[n].xmin == t && vs'[n].prev.Some?
               && vs'[n].prev.value < |vs'| && vs'[vs'[n].prev.value].xmin == c;
      if n < |vs| {
        assert vs[n] == vs'[n] && vs[vs[n].prev.value] == vs'[vs[n].prev.value];
      }
    }
  }

  lemma InsertNewRecordOk(s: State, t: TxnId)
    requires Inv(s) && Enabled(s, InsertNew(t))
    ensures RecordOk(s.log, Insert(t, Some(s.txns[t].pc.target), s.txns[t].pc.op.data))
  {
    assert TxnOk(s, t);
    SeenMayBeUsed(s, t, s.txns[t].pc.target);
    TargetLinked(s, t);
  }

  /** Whatever is written over is itself linked: its creator has committed, or is between updates. */
  lemma TargetLinked(s: State, t: TxnId)
    requires Inv(s) && t in s.txns && s.txns[t].pc.Validated?
    ensures s.txns[t].pc.target < |s.vs| && Linked(s.vs, s.txns[t].pc.target)
  {
    hide LogOk, Fold, CommitsOk, Linked;
    assert TxnOk(s, t);
    SeenMayBeUsed(s, t, s.txns[t].pc.target);
  }

  lemma InsertNewUnlinked(s: State, t: TxnId)
    requires Inv(s) && Enabled(s, InsertNew(t))
    ensures UnlinkedOk(Do(s, InsertNew(t)))
  {
    var s' := Do(s, InsertNew(t));
    assert TxnOk(s, t);
    FoldFacts(s.log);
    forall n | 0 <= n < |s'.vs| && !Linked(s'.vs, n)
      ensures Commit(s'.vs[n].xmin) !in s'.log
      ensures s'.vs[n].xmin in s'.txns ==>
        (s'.txns[s'.vs[n].xmin].pc.Ending? && !s'.txns[s'.vs[n].xmin].pc.commit)
        || (s'.txns[s'.vs[n].xmin].pc.Inserted? && s'.txns[s'.vs[n].xmin].pc.newest == n)
    {
      if n < |s.vs| {
        assert FromLog(s.log, s.vs[n], n);
        assert !Linked(s.vs, n);
      }
    }
  }

  lemma InsertNewTxn(s: State, t: TxnId, u: TxnId)
    requires Inv(s) && Enabled(s, InsertNew(t)) && u in s.txns
    ensures TxnOk(Do(s, InsertNew(t)), u)
  {
    var pc := s.txns[t].pc;
    var r := Insert(t, Some(pc.target), pc.op.data);
    if u == t {
      assert TxnOk(s, t);
      AppendKeepsDurable(s, r);
    } else {
      AppendTxn(s, r, u);
      SetPcTxn(Append(s, r), t, Inserted(pc.target, |s.vs|), u);
    }
  }

  lemma AppendCommits(s: State, r: LogRecord)
    requires s.durable <= |s.log| && CommitsOk(s) && r.txn in s.txns
    requires StatusOf(s.commits, r.txn) != Committed
    ensures CommitsOk(Append(s, r))
  {
    AppendKeepsDurable(s, r);
  }

  /** The part of the invariant that is about the log alone, after a record is appended. */
  lemma AppendLog(s: State, r: LogRecord)
    requires Inv(s) && RecordOk(s.log, r) && r.txn < s.next
    ensures LogOk(s.log + [r]) && Fold(s.log + [r]) == Apply(s.vs, r)
    ensures forall j :: 0 <= j < |s.log + [r]| ==> (s.log + [r])[j].txn < s.next
  {
    FoldAppend(s.log, r);
    LogOkAppend(s.log, r);
  }

  /** Until it logs its end, a transaction is neither over nor recorded as committed. */
  lemma StillRuns(s: State, t: TxnId)
    requires Inv(s) && t in s.txns && !s.txns[t].pc.Ending?
    ensures FIRST_USER_TXN <= t < s.next && !Ended(s.log, t) && StatusOf(s.commits, t) != Committed
  {
    hide LogOk, Fold, UnlinkedOk, CommitsOk, PendingOk;
    assert TxnOk(s, t);
  }

  lemma InsertTxn(s: State, t: TxnId, data: Payload, u: TxnId)
    requires Inv(s) && Enabled(s, DoInsert(t, data)) && u in s.txns
    ensures TxnOk(Do(s, DoInsert(t, data)), u)
  {
    var r := Insert(t, None, data);
    if u == t {
      assert TxnOk(s, t);
      AppendKeepsDurable(s, r);
    } else {
      AppendTxn(s, r, u);
    }
  }

  lemma InsertUnlinked(s: State, t: TxnId, data: Payload)
    requires Inv(s) && Enabled(s, DoInsert(t, data))
    ensures UnlinkedOk(Do(s, DoInsert(t, data)))
  {
    hide LogOk, CommitsOk, TxnOk;
    FoldFacts(s.log);
    assert forall n :: 0 <= n < |s.vs| ==> FromLog(s.log, s.vs[n], n);
  }

  lemma KeepInsert(s: State, t: TxnId, data: Payload)
    requires Inv(s) && Enabled(s, DoInsert(t, data))
    ensures Inv(Do(s, DoInsert(t, data)))
  {
    var r := Insert(t, None, data);
    assert TxnOk(s, t);
    AppendLog(s, r);
    AppendCommits(s, r);
    InsertUnlinked(s, t, data);
    forall u | u in s.txns ensures TxnOk(Do(s, DoInsert(t, data)), u) {
      InsertTxn(s, t, data, u);
    }
  }

  lemma KeepInsertNew(s: State, t: TxnId)
    requires Inv(s) && Enabled(s, InsertNew(t))
    ensures Inv(Do(s, InsertNew(t)))
  {
    hide TxnOk, RecordOk, LogOk, Fold, UnlinkedOk, CommitsOk, Linked, EffectVisible;
    var pc := s.txns[t].pc;
    var r := Insert(t, Some(pc.target), pc.op.data);
    var a := Append(s, r);
    StillRuns(s, t);
    InsertNewRecordOk(s, t);
    AppendLog(s, r);
    InsertNewUnlinked(s, t);
    AppendCommits(s, r);
    SetPcCommits(a, t, Inserted(pc.target, |s.vs|));
    forall u | u in s.txns ensures TxnOk(Do(s, InsertNew(t)), u) {
      InsertNewTxn(s, t, u);
    }
  }

  lemma UsesAfterStamp(vs: seq<Version>, i: nat, x: TxnId, t: TxnId, c: TxnId)
    requires i < |vs| && vs[i].xmax == NO_TXN && t != NO_TXN
    requires Uses(vs[i := vs[i].(xmax := x)], t, c)
    ensures Uses(vs, t, c) || (t == x && vs[i].xmin == c)
  {
    var vs' := vs[i := vs[i].(xmax := x)];
    if p :| 0 <= p < |vs'| && vs'[p].xmin == c && vs'[p].xmax == t {
      assert p != i ==> vs[p] == vs'[p];
    } else {
      var n :| 0 <= n < |vs'| && vs'[n].xmin == t && vs'[n].prev.Some?
               && vs'[n].prev.value < |vs'| && vs'[vs'[n].prev.value].xmin == c;
      assert vs[n].xmin == t && vs[n].prev == vs'[n].prev && vs[vs[n].prev.value].xmin == c;
    }
  }

  lemma StampUnlinked(s: State, t: TxnId)
    requires Inv(s) && Enabled(s, DoStamp(t))
    ensures UnlinkedOk(Do(s, DoStamp(t)))
  {
    hide CommitsOk, Fold, DurablyCommitted, EffectVisible, PendingOk;
    var s' := Do(s, DoStamp(t));
    var i := s.txns[t].pc.target;
    assert TxnOk(s, t);
    FoldFacts(s.log);
    forall n | 0 <= n < |s'.vs| && !Linked(s'.vs, n)
      ensures Commit(s'.vs[n].xmin) !in s'.log
      ensures s'.vs[n].xmin in s'.txns ==>
        (s'.txns[s'.vs[n].xmin].pc.Ending? && !s'.txns[s'.vs[n].xmin].pc.commit)
        || (s'.txns[s'.vs[n].xmin].pc.Inserted? && s'.txns[s'.vs[n].xmin].pc.newest == n)
    {
      assert FromLog(s.log, s.vs[n], n);
      assert !Linked(s.vs, n);
    }
  }

  lemma StampRecordOk(s: State, t: TxnId)
    requires Inv(s) && Enabled(s, DoStamp(t))
    ensures var pc := s.txns[t].pc; RecordOk(s.log, Stamp(t, pc.target, pc.Validated?))
  {
    var pc := s.txns[t].pc;
    assert TxnOk(s, t);
    SeenMayBeUsed(s, t, pc.target);
    OneReplacement(s.log);
    FoldFacts(s.log);
    assert forall n :: 0 <= n < |s.vs| ==> FromLog(s.log, s.vs[n], n);
    forall n, m | 0 <= n < |s.vs| && 0 <= m < |s.vs| && s.vs[n].prev == Some(pc.target) == s.vs[m].prev
      && s.vs[n].xmin == t
      ensures m <= n
    {
      assert !Linked(s.vs, n);
    }
  }

  lemma StampTxn(s: State, t: TxnId, u: TxnId)
    requires Inv(s) && Enabled(s, DoStamp(t)) && u in s.txns
    ensures TxnOk(Do(s, DoStamp(t)), u)
  {
    var pc := s.txns[t].pc;
    var r := Stamp(t, pc.target, pc.Validated?);
    assert TxnOk(s, t);
    if u == t {
      AppendKeepsDurable(s, r);
    } else {
      AppendTxn(s, r, u);
      SetPcTxn(Append(s, r), t, Idle, u);
    }
  }

  lemma KeepStamp(s: State, t: TxnId)
    requires Inv(s) && Enabled(s, DoStamp(t))
    ensures Inv(Do(s, DoStamp(t)))
  {
    hide TxnOk, RecordOk, LogOk, Fold, UnlinkedOk, CommitsOk, Linked, EffectVisible;
    var pc := s.txns[t].pc;
    var r := Stamp(t, pc.target, pc.Validated?);
    var a := Append(s, r);
    StillRuns(s, t);
    StampRecordOk(s, t);
    AppendLog(s, r);
    StampUnlinked(s, t);
    AppendCommits(s, r);
    SetPcCommits(a, t, Idle);
    forall u | u in s.txns ensures TxnOk(Do(s, DoStamp(t)), u) {
      StampTxn(s, t, u);
    }
  }

  lemma EndTxn(s: State, t: TxnId, commit: bool, u: TxnId)
    requires Inv(s) && Enabled(s, LogEnd(t, commit)) && u in s.txns
    ensures TxnOk(Do(s, LogEnd(t, commit)), u)
  {
    assert TxnOk(s, t);
    var r := if commit then Commit(t) else Abort(t);
    if s.txns[t].mode == ReadOnly {
      if u != t { assert TxnOk(s, u); SetPcTxn(s, t, Ending(commit, Logged), u); }
    } else if u == t {
      AppendKeepsDurable(s, r);
    } else {
      AppendTxn(s, r, u);
      SetPcTxn(Append(s, r), t, Ending(commit, Logged), u);
    }
  }

  lemma EndUnlinked(s: State, t: TxnId, commit: bool)
    requires Inv(s) && Enabled(s, LogEnd(t, commit))
    ensures UnlinkedOk(Do(s, LogEnd(t, commit)))
  {
    hide LogOk, Fold, CommitsOk, Linked;
    assert TxnOk(s, t);
    FoldFacts(s.log);
    assert forall n :: 0 <= n < |s.vs| ==> FromLog(s.log, s.vs[n], n);
  }

  lemma EndRecordOk(s: State, t: TxnId, r: LogRecord)
    requires Inv(s) && t in s.txns && !s.txns[t].pc.Ending?
    requires r == Abort(t) || (r == Commit(t) && s.txns[t].pc.Idle?)
    ensures RecordOk(s.log, r)
  {
    hide LogOk, Fold, CommitsOk, PendingOk;
    StillRuns(s, t);
    assert s.txns[t].pc.Idle? ==> forall n :: 0 <= n < |s.vs| && s.vs[n].xmin == t ==> Linked(s.vs, n);
  }

  lemma KeepLogEnd(s: State, t: TxnId, commit: bool)
    requires Inv(s) && Enabled(s, LogEnd(t, commit))
    ensures Inv(Do(s, LogEnd(t, commit)))
  {
    hide TxnOk, LogOk, Fold, UnlinkedOk, CommitsOk, PendingOk;
    EndUnlinked(s, t, commit);
    EndLog(s, t, commit);
    forall u | u in s.txns ensures TxnOk(Do(s, LogEnd(t, commit)), u) {
      EndTxn(s, t, commit, u);
    }
    assert PendingOk(Do(s, LogEnd(t, commit))) by { EndPending(s, t, commit); }
  }

  lemma EndPending(s: State, t: TxnId, commit: bool)
    requires PendingOk(s) && Enabled(s, LogEnd(t, commit))
    ensures PendingOk(Do(s, LogEnd(t, commit)))
  {
  }

  lemma EndLog(s: State, t: TxnId, commit: bool)
    requires Inv(s) && Enabled(s, LogEnd(t, commit))
    ensures var s' := Do(s, LogEnd(t, commit));
      && LogOk(s'.log) && s'.vs == Fold(s'.log) && CommitsOk(s')
      && forall j :: 0 <= j < |s'.log| ==> s'.log[j].txn < s'.next
  {
    hide TxnOk, RecordOk, LogOk, Fold, UnlinkedOk, CommitsOk, PendingOk;
    var r := if commit then Commit(t) else Abort(t);
    var pc := Ending(commit, Logged);
    if s.txns[t].mode == ReadOnly {
      SetPcCommits(s, t, pc);
    } else {
      StillRuns(s, t);
      EndRecordOk(s, t, r);
      AppendLog(s, r);
      AppendCommits(s, r);
      SetPcCommits(Append(s, r), t, pc);
    }
  }

  // ----- Crash and recovery -----

  lemma {:induction false} MaxTxnBounds(log: seq<LogRecord>)
    ensures MaxTxn(log) >= BOOTSTRAP_TXN
    ensures forall j :: 0 <= j < |log| ==> log[j].txn <= MaxTxn(log)
  {
    if log != [] {
      var k := |log| - 1;
      MaxTxnBounds(log[..k]);
      forall j | 0 <= j < |log| ensures log[j].txn <= MaxTxn(log) {
        if j < k { assert log[..k][j] == log[j]; }
      }
    }
  }

  /** In any log the store writes, every version of a transaction with a Commit record is linked. */
  lemma {:induction false} CommittedLinked(log: seq<LogRecord>)
    requires LogOk(log)
    ensures forall n :: 0 <= n < |Fold(log)| && Commit(Fold(log)[n].xmin) in log ==> Linked(Fold(log), n)
  {
    if log != [] {
      var k := |log| - 1;
      var pre, r := log[..k], log[k];
      LogOkPrefix(log, k);
      CommittedLinked(pre);
      FoldFacts(pre);
      assert RecordOk(pre, r);
      assert log == pre + [r];
      var vs, vs' := Fold(pre), Fold(log);
      forall n | 0 <= n < |vs'| && Commit(vs'[n].xmin) in log ensures Linked(vs', n) {
        if n < |vs| {
          assert FromLog(pre, vs[n], n);
          var j :| 0 <= j < |pre| && pre[j].Insert? && pre[j].txn == vs[n].xmin;
          assert RecordOk(log[..j], log[j]);
          assert Linked(vs, n);
        }
      }
    }
  }

  lemma RecoveredInv(log: seq<LogRecord>)
    requires LogOk(log)
    ensures Inv(Recovered(log))
  {
    var s := Recovered(log);
    MaxTxnBounds(log);
    CommittedLinked(log);
    assert log[..|log|] == log;
    forall t | StatusOf(s.commits, t) == Committed
      ensures DurablyCommitted(s, t) || forall j :: 0 <= j < |s.log| ==> s.log[j].txn != t
    {
      forall j | 0 <= j < |log| ensures log[j].txn != BOOTSTRAP_TXN {
        assert RecordOk(log[..j], log[j]);
      }
    }
  }

  // ----- Every run -----

  lemma StepKeepsInv(s: State, step: Step)
    requires Inv(s) && Enabled(s, step)
    ensures Inv(Do(s, step))
  {
    match step
    case Alloc => KeepAlloc(s);
    case Register(t, mode) => KeepRegister(s, t, mode);
    case DoInsert(t, data) => KeepInsert(s, t, data);
    case Lock(t, i, op) => KeepLock(s, t, i, op);
    case Validate(t) => KeepValidate(s, t);
    case Refuse(t) => KeepRefuse(s, t);
    case InsertNew(t) => KeepInsertNew(s, t);
    case DoStamp(t) => KeepStamp(s, t);
    case LogEnd(t, commit) => KeepLogEnd(s, t, commit);
    case Flush(t) => KeepFlush(s, t);
    case RecordEnd(t) => KeepRecordEnd(s, t);
    case Release(t) => KeepRelease(s, t);
    case Leave(t) => KeepLeave(s, t);
    case Crash(keep) =>
      LogOkPrefix(s.log, keep);
      RecoveredInv(s.log[..keep]);
  }

  lemma {:induction false} ExecInv(s: State, steps: seq<Step>, s': State)
    requires Inv(s) && Exec(s, steps, s')
    ensures Inv(s')
  {
    if steps != [] {
      var last := |steps| - 1;
      var p :| Exec(s, steps[..last], p) && Enabled(p, steps[last]) && Do(p, steps[last]) == s';
      ExecInv(s, steps[..last], p);
      StepKeepsInv(p, steps[last]);
    }
  }

  lemma RunInv(steps: seq<Step>, s: State)
    requires Run(steps, s)
    ensures Inv(s)
  {
    assert Inv(Init);
    ExecInv(Init, steps, s);
  }

  // ----- Runs without overlapping begins -----

  /** In such runs, what a transaction sees is over, and over for its snapshot. */
  lemma SeenIsOver(s: State, t: TxnId, i: nat)
    requires Inv(s) && t in s.txns && Settled(s, t) && i < |s.vs|
    requires EffectVisible(s.vs[i].xmin, s.txns[t].snap, s.commits)
    ensures s.vs[i].xmin != t ==> s.vs[i].xmin !in s.txns && Over(s.txns[t].snap, s.vs[i].xmin)
  {
  }

  /** A transaction that was alone when it took its snapshot stays settled, whatever the others do. */
  lemma SettledStep(s: State, step: Step, t: TxnId)
    requires Inv(s) && Enabled(s, step) && !step.Crash? && t in s.txns && t in Do(s, step).txns && Settled(s, t)
    ensures Settled(Do(s, step), t)
  {
    hide Inv, EffectVisible;
    SnapBelow(s, t);
  }

  lemma SnapBelow(s: State, t: TxnId)
    requires Inv(s) && t in s.txns
    ensures t < s.txns[t].snap.xmax <= s.next && t !in s.pending
  {
    hide LogOk, Fold, UnlinkedOk, CommitsOk;
    assert TxnOk(s, t);
  }

  lemma SettledStart(s: State, t: TxnId, mode: Mode)
    requires Inv(s) && Enabled(s, Register(t, mode)) && s.pending == {t}
    ensures Settled(Do(s, Register(t, mode)), t)
  {
  }

  lemma SeenBehind(s: State, t: TxnId, i: nat)
    requires Inv(s) && Apart(s) && t in s.txns && i < |s.vs|
    requires EffectVisible(s.vs[i].xmin, s.txns[t].snap, s.commits)
    ensures s.vs[i].xmin != t ==> Behind(s, t, s.vs[i].xmin)
  {
    SeenIsOver(s, t, i);
    hide Inv, Closed, EffectVisible;
    assert forall u :: u in s.txns && Over(s.txns[u].snap, t) ==> u == t;
  }

  /** Appending a version adds at most the pair (its creator, its predecessor's creator). */
  lemma InsertClosed(s: State, r: LogRecord)
    requires Inv(s) && Closed(s) && r.Insert? && r.txn in s.txns
    requires r.prev.Some? ==>
      r.prev.value < |s.vs| && (s.vs[r.prev.value].xmin != r.txn ==> Behind(s, r.txn, s.vs[r.prev.value].xmin))
    ensures Closed(Append(s, r))
  {
    hide Behind;
    var s' := Append(s, r);
    FoldFacts(s.log);
    assert forall n :: 0 <= n < |s.vs| ==> FromLog(s.log, s.vs[n], n);
    forall t: TxnId, c: TxnId | Uses(s'.vs, t, c) && t != NO_TXN && c != t ensures Behind(s', t, c) {
      UsesAfterInsert(s.vs, Version(r.txn, NO_TXN, r.prev, r.data), t, c);
      SameBehind(s, s', t, c);
    }
  }

  lemma StampClosed(s: State, r: LogRecord)
    requires Inv(s) && Closed(s) && r.Stamp? && r.txn in s.txns && r.target < |s.vs|
    requires s.vs[r.target].xmax == NO_TXN
    requires s.vs[r.target].xmin != r.txn ==> Behind(s, r.txn, s.vs[r.target].xmin)
    ensures Closed(Append(s, r))
  {
    hide Behind;
    var s' := Append(s, r);
    forall t: TxnId, c: TxnId | Uses(s'.vs, t, c) && t != NO_TXN && c != t ensures Behind(s', t, c) {
      UsesAfterStamp(s.vs, r.target, r.txn, t, c);
      SameBehind(s, s', t, c);
    }
  }

  lemma SameBehind(s: State, s': State, t: TxnId, c: TxnId)
    requires forall u :: u in s'.txns ==> u in s.txns && s'.txns[u].snap == s.txns[u].snap
    ensures Behind(s, t, c) ==> Behind(s', t, c)
  {
  }

  lemma RegisterClosed(s: State, t: TxnId, mode: Mode)
    requires Inv(s) && Closed(s) && Enabled(s, Register(t, mode))
    ensures Closed(Do(s, Register(t, mode)))
  {
    hide LogOk, Fold, UnlinkedOk, CommitsOk, TxnOk;
    var s' := Do(s, Register(t, mode));
    FoldFacts(s.log);
    assert forall n :: 0 <= n < |s.vs| ==> FromLog(s.log, s.vs[n], n);
    forall a: TxnId, c: TxnId | Uses(s'.vs, a, c) && a != NO_TXN && c != a ensures Behind(s', a, c) {
      assert Behind(s, a, c);
      assert c < s.next && c !in s.txns && c != t;
    }
  }

  lemma InsertNewClosed(s: State, t: TxnId)
    requires Inv(s) && Apart(s) && Enabled(s, InsertNew(t))
    ensures Closed(Do(s, InsertNew(t)))
  {
    hide LogOk, Fold, UnlinkedOk, CommitsOk, Closed, PendingOk;
    assert TxnOk(s, t);
    var r := Insert(t, Some(s.txns[t].pc.target), s.txns[t].pc.op.data);
    SeenBehind(s, t, s.txns[t].pc.target);
    InsertClosed(s, r);
    SameClosed(Append(s, r), Do(s, InsertNew(t)));
  }

  lemma DoStampClosed(s: State, t: TxnId)
    requires Inv(s) && Apart(s) && Enabled(s, DoStamp(t))
    ensures Closed(Do(s, DoStamp(t)))
  {
    hide LogOk, Fold, UnlinkedOk, CommitsOk, Closed, PendingOk;
    assert TxnOk(s, t);
    var r := Stamp(t, s.txns[t].pc.target, s.txns[t].pc.Validated?);
    SeenBehind(s, t, s.txns[t].pc.target);
    StampClosed(s, r);
    SameClosed(Append(s, r), Do(s, DoStamp(t)));
  }

  lemma ClosedStep(s: State, step: Step)
    requires Inv(s) && Apart(s) && Enabled(s, step) && !step.Crash?
    ensures Closed(Do(s, step))
  {
    hide Inv, Closed;
    if step.Register? {
      RegisterClosed(s, step.t, step.mode);
    } else if step.DoInsert? {
      InsertClosed(s, Insert(step.t, None, step.data));
    } else if step.InsertNew? {
      InsertNewClosed(s, step.t);
    } else if step.DoStamp? {
      DoStampClosed(s, step.t);
    } else {
      SameClosed(s, Do(s, step));
    }
  }

  lemma SameClosed(s: State, s': State)
    requires Closed(s) && s'.vs == s.vs
    requires forall t :: t in s'.txns ==> t in s.txns && s'.txns[t].snap == s.txns[t].snap
    ensures Closed(s')
  {
    hide Uses, Behind;
    forall t: TxnId, c: TxnId | Uses(s'.vs, t, c) && t != NO_TXN && c != t ensures Behind(s', t, c) {
      SameBehind(s, s', t, c);
    }
  }

  lemma StepKeepsApart(s: State, step: Step)
    requires Inv(s) && Apart(s) && Enabled(s, step) && Alone(s, step)
    ensures Apart(Do(s, step))
  {
    if step.Crash? {
      RecoveredApart(s.log[..step.keep]);
    } else {
      ClosedStep(s, step);
      hide Closed, LogOk, Fold, UnlinkedOk, CommitsOk, TxnOk;
      forall t | t in Do(s, step).txns ensures Settled(Do(s, step), t) {
        if t in s.txns {
          SettledStep(s, step, t);
        } else {
          SettledStart(s, step.t, step.mode);
        }
      }
    }
  }

  lemma RecoveredApart(log: seq<LogRecord>)
    ensures Apart(Recovered(log))
  {
    hide Uses, Fold;
  }

  lemma {:induction false} SoloExecInv(s: State, steps: seq<Step>, s': State)
    requires Inv(s) && Apart(s) && SoloExec(s, steps, s')
    ensures Inv(s') && Apart(s')
  {
    if steps != [] {
      var last := |steps| - 1;
      var p :| SoloExec(s, steps[..last], p) && Enabled(p, steps[last]) && Alone(p, steps[last])
        && Do(p, steps[last]) == s';
      SoloExecInv(s, steps[..last], p);
      StepKeepsInv(p, steps[last]);
      StepKeepsApart(p, steps[last]);
    }
  }

  lemma SoloRunInv(steps: seq<Step>, s: State)
    requires SoloRun(steps, s)
    ensures Inv(s) && Apart(s)
  {
    assert Inv(Init) && Apart(Init);
    SoloExecInv(Init, steps, s);
  }

  // ----- Version chains -----

  /** The first version of the chain `n` belongs to. Predecessors are always older. */
  function Root(vs: seq<Version>, n: nat): (r: nat)
    requires n < |vs|
    ensures r <= n
  {
    if vs[n].prev.Some? && vs[n].prev.value < n then Root(vs, vs[n].prev.value) else n
  }

  /**
   * A set of versions that contains predecessors and in which no version is replaced twice: what
   * one snapshot sees created, and also, when no update was cut short, all versions.
   */
  ghost predicate Unforked(vs: seq<Version>, g: set<nat>) {
    && (forall i :: 0 <= i < |vs| && vs[i].prev.Some? ==> vs[i].prev.value < i)
    && (forall n :: n in g ==> n < |vs| && (vs[n].prev.Some? ==> vs[n].prev.value in g))
    && (forall a, b :: a in g && b in g && vs[a].prev.Some? && vs[a].prev == vs[b].prev ==> a == b)
  }

  /** Two versions of one chain are comparable: the older one has a successor on the way. */
  lemma {:induction false} Successor(vs: seq<Version>, g: set<nat>, a: nat, b: nat) returns (q: nat)
    requires Unforked(vs, g) && a in g && b in g && a < b && Root(vs, a) == Root(vs, b)
    ensures q in g && a < q <= b && vs[q].prev == Some(a)
    decreases b, a
  {
    var p := vs[b].prev.value;
    if p == a {
      q := b;
    } else if a < p {
      q := Successor(vs, g, a, p);
    } else {
      var q' := Successor(vs, g, p, a);
      assert false;
    }
  }

  /** `read`: walk from `n` back in time to the first visible version. */
  function ReadFrom(vs: seq<Version>, n: nat, snap: Snapshot, commits: CommitLog): (r: Option<nat>)
    requires n < |vs|
    ensures r.Some? ==> r.value <= n && Root(vs, r.value) == Root(vs, n)
                        && Visible(vs[r.value].xmin, vs[r.value].xmax, snap, commits)
  {
    if Visible(vs[n].xmin, vs[n].xmax, snap, commits) then Some(n)
    else if vs[n].prev.Some? && vs[n].prev.value < n then ReadFrom(vs, vs[n].prev.value, snap, commits)
    else None
  }

  predicate Sees(s: State, t: TxnId, n: nat)
    requires t in s.txns && n < |s.vs|
  {
    Visible(s.vs[n].xmin, s.vs[n].xmax, s.txns[t].snap, s.commits)
  }

  /** The versions whose creation `t` sees, whether or not they were deleted since. */
  function Created(s: State, t: TxnId): set<nat>
    requires t in s.txns
  {
    set n: nat | n < |s.vs| && EffectVisible(s.vs[n].xmin, s.txns[t].snap, s.commits)
  }

  /** No transaction replaces the same version twice. */
  lemma {:induction false} OneReplacement(log: seq<LogRecord>)
    requires LogOk(log)
    ensures forall a, b | 0 <= a < |Fold(log)| && 0 <= b < |Fold(log)| ::
      Fold(log)[a].prev.Some? && Fold(log)[a].prev == Fold(log)[b].prev ==>
        Fold(log)[a].xmin != Fold(log)[b].xmin || a == b
  {
    if log != [] {
      var k := |log| - 1;
      LogOkPrefix(log, k);
      OneReplacement(log[..k]);
      assert RecordOk(log[..k], log[k]);
    }
  }

  /** By the log, every creator whose version was built on is the builder itself or has committed. */
  lemma {:induction false} UsesMay(log: seq<LogRecord>, t: TxnId, c: TxnId)
    requires LogOk(log) && t != NO_TXN && Uses(Fold(log), t, c)
    ensures MayUse(log, t, c)
  {
    if log != [] {
      var k := |log| - 1;
      var pre, r := log[..k], log[k];
      LogOkPrefix(log, k);
      assert RecordOk(pre, r);
      FoldFacts(pre);
      assert forall n :: 0 <= n < |Fold(pre)| ==> FromLog(pre, Fold(pre)[n], n);
      if Uses(Fold(pre), t, c) {
        UsesMay(pre, t, c);
      } else if r.Insert? {
        UsesAfterInsert(Fold(pre), Version(r.txn, NO_TXN, r.prev, r.data), t, c);
      } else {
        UsesAfterStamp(Fold(pre), r.target, r.txn, t, c);
      }
    }
  }

  /** A running transaction that sees `u`'s effects sees those of every `c` that `u` built on. */
  lemma SnapshotClosed(s: State, t: TxnId, u: TxnId, c: TxnId)
    requires Inv(s) && Closed(s) && t in s.txns && EffectVisible(u, s.txns[t].snap, s.commits) && Uses(s.vs, u, c)
    ensures EffectVisible(c, s.txns[t].snap, s.commits)
  {
    assert TxnOk(s, t);
    FoldFacts(s.log);
    assert forall n :: 0 <= n < |s.vs| ==> FromLog(s.log, s.vs[n], n);
    assert c != NO_TXN by {
      forall j | 0 <= j < |s.log| ensures s.log[j].txn != NO_TXN { assert RecordOk(s.log[..j], s.log[j]); }
    }
    if c != u && c != t {
      UsesMay(s.log, u, c);
      assert Over(s.txns[t].snap, u);
      assert Behind(s, u, c);
    }
  }

  lemma CreatedUnforked(s: State, t: TxnId)
    requires Inv(s) && Closed(s) && t in s.txns && s.txns[t].pc.Idle?
    ensures Unforked(s.vs, Created(s, t))
    ensures forall n :: n in Created(s, t) ==> Linked(s.vs, n)
  {
    assert TxnOk(s, t);
    FoldFacts(s.log);
    assert forall n :: 0 <= n < |s.vs| ==> FromLog(s.log, s.vs[n], n);
    var g := Created(s, t);
    forall n | n in g ensures Linked(s.vs, n) {
      CreatedLinked(s, t, n);
    }
    forall n | n in g && s.vs[n].prev.Some? ensures s.vs[n].prev.value in g {
      var p := s.vs[n].prev.value;
      assert Uses(s.vs, s.vs[n].xmin, s.vs[p].xmin);
      SnapshotClosed(s, t, s.vs[n].xmin, s.vs[p].xmin);
    }
    OneReplacement(s.log);
  }

  lemma CreatedLinked(s: State, t: TxnId, n: nat)
    requires Inv(s) && t in s.txns && s.txns[t].pc.Idle? && n in Created(s, t)
    ensures Linked(s.vs, n)
  {
    assert TxnOk(s, t);
    FoldFacts(s.log);
    assert FromLog(s.log, s.vs[n], n);
    var u := s.vs[n].xmin;
    if u != t {
      assert StatusOf(s.commits, u) == Committed;
      assert DurablyCommitted(s, u);
      CommittedLinked(s.log);
    }
  }

  /** Of two versions of one chain that `t` sees created, the older is hidden from it. */
  lemma OlderHidden(s: State, t: TxnId, a: nat, b: nat)
    requires Inv(s) && Closed(s) && t in s.txns && s.txns[t].pc.Idle?
    requires a in Created(s, t) && b in Created(s, t) && a < b && Root(s.vs, a) == Root(s.vs, b)
    ensures !Sees(s, t, a)
  {
    CreatedUnforked(s, t);
    var q := Successor(s.vs, Created(s, t), a, b);
    assert Linked(s.vs, q);
  }

  /**
   * In every run whose begins do not overlap, at most one version of a chain is visible to a transaction
   * that is between operations: versions a transaction was cut off from linking are visible to nobody else.
   */
  lemma AtMostOneVisible(steps: seq<Step>, s: State, t: TxnId, a: nat, b: nat)
    requires SoloRun(steps, s) && t in s.txns && s.txns[t].pc.Idle?
    requires a < |s.vs| && b < |s.vs| && Root(s.vs, a) == Root(s.vs, b)
    ensures Sees(s, t, a) && Sees(s, t, b) ==> a == b
  {
    SoloRunInv(steps, s);
    SeesOne(s, t, a, b);
  }

  lemma SeesOne(s: State, t: TxnId, a: nat, b: nat)
    requires Inv(s) && Closed(s) && t in s.txns && s.txns[t].pc.Idle?
    requires a < |s.vs| && b < |s.vs| && Root(s.vs, a) == Root(s.vs, b)
    ensures Sees(s, t, a) && Sees(s, t, b) ==> a == b
  {
    hide Inv, Closed, Root;
    if Sees(s, t, a) && Sees(s, t, b) {
      if a < b {
        OlderHidden(s, t, a, b);
      } else if b < a {
        OlderHidden(s, t, b, a);
      }
    }
  }

  /** Walking back from any member of an unforked set reaches its visible member, if it is older. */
  lemma {:induction false} ReadReaches(s: State, t: TxnId, g: set<nat>, h: nat, u: nat)
    requires Inv(s) && Closed(s) && t in s.txns && s.txns[t].pc.Idle?
    requires Unforked(s.vs, g) && h in g && u in g && u <= h && Root(s.vs, h) == Root(s.vs, u)
    requires Sees(s, t, u)
    ensures ReadFrom(s.vs, h, s.txns[t].snap, s.commits) == Some(u)
  {
    if u < h {
      if Sees(s, t, h) {
        OlderHidden(s, t, u, h);
      } else {
        var p := s.vs[h].prev.value;
        if p < u {
          var q := Successor(s.vs, g, p, u);
          assert false;
        } else {
          ReadReaches(s, t, g, p, u);
        }
      }
    }
  }

  /** Whatever was replaced had itself replaced its predecessor, and stamps stay. */
  lemma {:induction false} ParentsLinked(log: seq<LogRecord>)
    requires LogOk(log)
    ensures forall n :: 0 <= n < |Fold(log)| && Fold(log)[n].prev.Some? ==>
      Fold(log)[n].prev.value < n && Linked(Fold(log), Fold(log)[n].prev.value)
  {
    if log != [] {
      var k := |log| - 1;
      var pre, r := log[..k], log[k];
      LogOkPrefix(log, k);
      ParentsLinked(pre);
      FoldFacts(pre);
      assert RecordOk(pre, r) && Fold(log) == Apply(Fold(pre), r);
      var vs, vs' := Fold(pre), Fold(log);
      hide LogOk, Fold;
      forall n | 0 <= n < |vs'| && vs'[n].prev.Some? ensures vs'[n].prev.value < n && Linked(vs', vs'[n].prev.value) {
        if n < |vs| {
          assert FromLog(pre, vs[n], n) && vs'[n].prev == vs[n].prev;
          assert Linked(vs, vs[n].prev.value);
        }
      }
    }
  }

  /** The version whose creator stamped its predecessor is the last to have replaced it. */
  lemma {:induction false} StamperNewest(log: seq<LogRecord>, i: nat)
    requires LogOk(log) && i < |Fold(log)| && Fold(log)[i].xmax != NO_TXN
    ensures NewestOf(Fold(log), i, Fold(log)[i].xmax)
  {
    var k := |log| - 1;
    var pre, r := log[..k], log[k];
    LogOkPrefix(log, k);
    assert RecordOk(pre, r) && Fold(log) == Apply(Fold(pre), r);
    var vs, vs' := Fold(pre), Fold(log);
    if i < |vs| && vs[i].xmax != NO_TXN {
      StamperNewest(pre, i);
    }
    hide LogOk, Fold;
    assert i < |vs| && vs'[i].xmax == if vs[i].xmax == NO_TXN then r.txn else vs[i].xmax;
    forall n, m | 0 <= n < |vs'| && 0 <= m < |vs'| && vs'[n].prev == Some(i) == vs'[m].prev
      && vs'[n].xmin == vs'[i].xmax
      ensures m <= n
    {
      assert n < |vs| && m < |vs|;
      assert vs[n].prev == vs'[n].prev && vs[m].prev == vs'[m].prev && vs[n].xmin == vs'[n].xmin;
    }
  }

  /** The linked versions of a chain, and its newest one whether linked or not, do not fork. */
  lemma LinkedUnforked(log: seq<LogRecord>, h: nat, g: set<nat>)
    requires LogOk(log) && h < |Fold(log)|
    requires forall n: nat :: n in g <==>
      n < |Fold(log)| && Root(Fold(log), n) == Root(Fold(log), h) && (Linked(Fold(log), n) || n == h)
    requires forall n :: n in g ==> n <= h
    ensures Unforked(Fold(log), g)
  {
    FoldFacts(log);
    OneReplacement(log);
    ParentsLinked(log);
    var vs := Fold(log);
    forall a, b | a in g && b in g && vs[a].prev.Some? && vs[a].prev == vs[b].prev ensures a == b {
      SameParent(log, h, a, b);
    }
    hide LogOk, Fold;
  }

  lemma SameParent(log: seq<LogRecord>, h: nat, a: nat, b: nat)
    requires LogOk(log) && a <= h < |Fold(log)| && b <= h
    requires (a == h || Linked(Fold(log), a)) && (b == h || Linked(Fold(log), b))
    requires Fold(log)[a].prev.Some? && Fold(log)[a].prev == Fold(log)[b].prev
    ensures a == b
  {
    OneReplacement(log);
    FoldFacts(log);
    LogOkWritten(log);
    UserTxns(log);
    var vs := Fold(log);
    assert FromLog(log, vs[a], a) && FromLog(log, vs[b], b);
    var i := vs[a].prev.value;
    if vs[i].xmax != NO_TXN { StamperNewest(log, i); }
  }

  /**
   * `read` from the newest version of a chain returns the version visible to the reader, whichever it
   * is, whatever updates of the chain were cut off or are still under way.
   */
  lemma ReadFromHead(steps: seq<Step>, s: State, t: TxnId, h: nat, u: nat)
    requires SoloRun(steps, s) && t in s.txns && s.txns[t].pc.Idle?
    requires h < |s.vs| && u < |s.vs| && Root(s.vs, u) == Root(s.vs, h)
    requires forall n :: 0 <= n < |s.vs| && Root(s.vs, n) == Root(s.vs, h) ==> n <= h
    requires Sees(s, t, u)
    ensures ReadFrom(s.vs, h, s.txns[t].snap, s.commits) == Some(u)
  {
    SoloRunInv(steps, s);
    ReadsVisible(s, t, h, u);
  }

  lemma ReadsVisible(s: State, t: TxnId, h: nat, u: nat)
    requires Inv(s) && Closed(s) && t in s.txns && s.txns[t].pc.Idle?
    requires h < |s.vs| && u < |s.vs| && Root(s.vs, u) == Root(s.vs, h)
    requires forall n :: 0 <= n < |s.vs| && Root(s.vs, n) == Root(s.vs, h) ==> n <= h
    requires Sees(s, t, u)
    ensures ReadFrom(s.vs, h, s.txns[t].snap, s.commits) == Some(u)
  {
    var g := set n: nat | n < |s.vs| && Root(s.vs, n) == Root(s.vs, h) && (Linked(s.vs, n) || n == h);
    LinkedUnforked(s.log, h, g);
    CreatedLinked(s, t, u);
    hide Root, Unforked, Linked;
    ReadReaches(s, t, g, h, u);
  }

  lemma {:induction false} NewestIn(vs: seq<Version>, h: nat, k: nat) returns (m: nat)
    requires h < k <= |vs|
    ensures h <= m < k && Root(vs, m) == Root(vs, h)
    ensures forall n :: 0 <= n < k && Root(vs, n) == Root(vs, h) ==> n <= m
  {
    if h == k - 1 || Root(vs, k - 1) == Root(vs, h) {
      m := k - 1;
    } else {
      m := NewestIn(vs, h, k - 1);
    }
  }

  /** From a linked version, too, `read` finds the visible version if that is older. */
  lemma ReadsFromLinked(s: State, t: TxnId, h: nat, u: nat)
    requires Inv(s) && Closed(s) && t in s.txns && s.txns[t].pc.Idle?
    requires u <= h < |s.vs| && Linked(s.vs, h) && Root(s.vs, u) == Root(s.vs, h) && Sees(s, t, u)
    ensures ReadFrom(s.vs, h, s.txns[t].snap, s.commits) == Some(u)
  {
    var m := NewestIn(s.vs, h, |s.vs|);
    var g := set n: nat | n < |s.vs| && Root(s.vs, n) == Root(s.vs, m) && (Linked(s.vs, n) || n == m);
    LinkedUnforked(s.log, m, g);
    CreatedLinked(s, t, u);
    hide Root, Unforked, Linked;
    ReadReaches(s, t, g, h, u);
  }

  /** `read` from any version the reader sees created, not only the newest, finds any older one. */
  lemma ReadFromSeen(steps: seq<Step>, s: State, t: TxnId, h: nat, u: nat)
    requires SoloRun(steps, s) && t in s.txns && s.txns[t].pc.Idle?
    requires h in Created(s, t) && u <= h && Root(s.vs, u) == Root(s.vs, h) && Sees(s, t, u)
    ensures ReadFrom(s.vs, h, s.txns[t].snap, s.commits) == Some(u)
  {
    SoloRunInv(steps, s);
    CreatedUnforked(s, t);
    ReadReaches(s, t, Created(s, t), h, u);
  }

  // ----- Stamps are written once -----

  lemma {:induction false} StampSticks(log: seq<LogRecord>, k: nat, n: nat)
    requires LogWritten(log) && k <= |log| && n < |Fold(log[..k])| && Fold(log[..k])[n].xmax != NO_TXN
    ensures n < |Fold(log)| && Fold(log)[n] == Fold(log[..k])[n]
    decreases |log| - k
  {
    if k == |log| {
      assert log[..k] == log;
    } else {
      assert WrittenOk(log[..k], log[k]);
      assert log[..k + 1] == log[..k] + [log[k]];
      FoldAppend(log[..k], log[k]);
      StampSticks(log, k + 1, n);
    }
  }

  /** In every run, crashes included, no version's xmax is written twice. */
  lemma StampedOnce(steps: seq<Step>, s: State, i: nat, j: nat)
    requires Run(steps, s) && i < j < |s.log| && s.log[i].Stamp? && s.log[j].Stamp?
    ensures s.log[i].target != s.log[j].target
  {
    hide Run, LogOk;
    RunLogOk(steps, s, |s.log|);
    assert s.log[..|s.log|] == s.log;
    LogOkWritten(s.log);
    StampedOnceInLog(s.log, i, j);
  }

  lemma StampedOnceInLog(log: seq<LogRecord>, i: nat, j: nat)
    requires LogWritten(log) && i < j < |log| && log[i].Stamp? && log[j].Stamp?
    ensures log[i].target != log[j].target
  {
    hide Fold;
    var n := log[i].target;
    assert WrittenOk(log[..i], log[i]);
    assert WrittenOk(log[..j], log[j]);
    LogWrittenPrefix(log, j);
    hide LogWritten;
    assert log[..i + 1] == log[..i] + [log[i]];
    FoldAppend(log[..i], log[i]);
    assert log[..j][..i + 1] == log[..i + 1];
    StampSticks(log[..j], i + 1, n);
  }

  // ----- Snapshot stability -----

  predicate StepBy(step: Step, t: TxnId) {
    !step.Alloc? && !step.Crash? && step.t == t
  }

  /** Whoever else takes a step is not over for `t`. */
  lemma OtherNotOver(s: State, step: Step, t: TxnId)
    requires t in s.txns
    requires Inv(s) && Settled(s, t) && Enabled(s, step) && !StepBy(step, t) && !step.Crash? && !step.Alloc?
    ensures step.t != t && FIRST_USER_TXN <= step.t && !Over(s.txns[t].snap, step.t)
    ensures s.txns[t].snap.txnId == t
  {
    hide LogOk, Fold, UnlinkedOk, CommitsOk, DurablyCommitted, Ended, EffectVisible, Do, Over;
    assert TxnOk(s, t);
    if !step.Register? { assert TxnOk(s, step.t); }
  }

  lemma EffectStable(s: State, step: Step, t: TxnId, x: TxnId)
    requires t in s.txns
    requires Inv(s) && Settled(s, t) && Enabled(s, step) && !StepBy(step, t) && !step.Crash?
    ensures EffectVisible(x, s.txns[t].snap, Do(s, step).commits) == EffectVisible(x, s.txns[t].snap, s.commits)
    ensures !step.Alloc? ==> !EffectVisible(step.t, s.txns[t].snap, s.commits)
    ensures t in Do(s, step).txns && Do(s, step).txns[t] == s.txns[t]
  {
    hide Inv, Settled;
    if !step.Alloc? { OtherNotOver(s, step, t); }
  }

  /** Settled or not, what `t` sees committed it goes on seeing. */
  lemma EffectStays(s: State, step: Step, t: TxnId, x: TxnId)
    requires Inv(s) && Enabled(s, step) && !step.Crash? && t in s.txns && t in Do(s, step).txns
    requires EffectVisible(x, s.txns[t].snap, s.commits)
    ensures EffectVisible(x, Do(s, step).txns[t].snap, Do(s, step).commits)
  {
    hide LogOk, Fold, UnlinkedOk, CommitsOk, DurablyCommitted, Ended;
    if step.RecordEnd? { assert TxnOk(s, step.t); }
    if step.Register? { assert step.t != t; }
  }

  /** And a version whose creation it sees, once hidden from it, stays hidden. */
  lemma HiddenStays(s: State, step: Step, t: TxnId, n: nat)
    requires Inv(s) && Enabled(s, step) && !step.Crash? && t in s.txns && t in Do(s, step).txns && n < |s.vs|
    requires EffectVisible(s.vs[n].xmin, s.txns[t].snap, s.commits)
    ensures n < |Do(s, step).vs| && Do(s, step).vs[n].data == s.vs[n].data && Do(s, step).vs[n].xmin == s.vs[n].xmin
    ensures Sees(Do(s, step), t, n) ==> Sees(s, t, n)
  {
    hide LogOk, Fold, UnlinkedOk, CommitsOk, DurablyCommitted, Ended, EffectVisible, PendingOk;
    if step.DoStamp? { assert TxnOk(s, step.t); }
    if EffectVisible(s.vs[n].xmax, s.txns[t].snap, s.commits) {
      EffectStays(s, step, t, s.vs[n].xmax);
    }
  }

  /** One step of anyone else changes nothing `t` sees. */
  lemma StableStep(s: State, step: Step, t: TxnId)
    requires t in s.txns
    requires Inv(s) && Settled(s, t) && Enabled(s, step) && !StepBy(step, t) && !step.Crash?
    ensures var s' := Do(s, step);
      && t in s'.txns && s'.txns[t] == s.txns[t] && |s.vs| <= |s'.vs|
      && (forall n :: 0 <= n < |s.vs| ==> Sees(s', t, n) == Sees(s, t, n) && s'.vs[n].data == s.vs[n].data)
      && (forall n :: |s.vs| <= n < |s'.vs| ==> !Sees(s', t, n))
  {
    hide LogOk, Fold, UnlinkedOk, CommitsOk, EffectVisible;
    var s' := Do(s, step);
    EffectStable(s, step, t, NO_TXN);
    if !step.Alloc? && !step.Register? { assert TxnOk(s, step.t); }
    forall n | 0 <= n < |s.vs| ensures Sees(s', t, n) == Sees(s, t, n) && s'.vs[n].data == s.vs[n].data {
      EffectStable(s, step, t, s.vs[n].xmin);
      EffectStable(s, step, t, s.vs[n].xmax);
      EffectStable(s, step, t, s'.vs[n].xmax);
    }
    forall n | |s.vs| <= n < |s'.vs| ensures !Sees(s', t, n) {
      EffectStable(s, step, t, s'.vs[n].xmin);
    }
  }

  /**
   * Over any run of others' steps, overlapping begins included, a transaction that was alone when it took
   * its snapshot sees the same versions and nothing new.
   */
  lemma {:induction false} SnapshotStable(s: State, steps: seq<Step>, s': State, t: TxnId)
    requires Inv(s) && Exec(s, steps, s') && t in s.txns && Settled(s, t)
    requires forall step :: step in steps ==> !StepBy(step, t) && !step.Crash?
    ensures t in s'.txns && s'.txns[t] == s.txns[t] && |s.vs| <= |s'.vs| && Settled(s', t)
    ensures forall n :: 0 <= n < |s.vs| ==> Sees(s', t, n) == Sees(s, t, n) && s'.vs[n].data == s.vs[n].data
    ensures forall n :: |s.vs| <= n < |s'.vs| ==> !Sees(s', t, n)
  {
    if steps != [] {
      var last := |steps| - 1;
      var p :| Exec(s, steps[..last], p) && Enabled(p, steps[last]) && Do(p, steps[last]) == s';
      SnapshotStable(s, steps[..last], p, t);
      ExecInv(s, steps[..last], p);
      assert steps[last] in steps;
      StableStep(p, steps[last], t);
      SettledStep(p, steps[last], t);
    }
  }

  // ----- What a crash keeps -----

  lemma NotBothEnded(log: seq<LogRecord>, t: TxnId)
    requires LogWritten(log)
    ensures !(Commit(t) in log && Abort(t) in log)
  {
  }

  lemma RecoveredStatus(log: seq<LogRecord>, t: TxnId)
    requires LogWritten(log) && t != BOOTSTRAP_TXN
    ensures StatusOf(RecoveredCommits(log), t) == Committed <==> Commit(t) in log
  {
    MaxTxnBounds(log);
    NotBothEnded(log, t);
    if Commit(t) in log {
      var j :| 0 <= j < |log| && log[j] == Commit(t);
      assert log[j].txn <= MaxTxn(log);
      assert WrittenOk(log[..j], log[j]);
    }
  }

  lemma UserTxns(log: seq<LogRecord>)
    requires LogWritten(log)
    ensures forall j :: 0 <= j < |log| ==> log[j].txn >= FIRST_USER_TXN
  {
    forall j | 0 <= j < |log| ensures log[j].txn >= FIRST_USER_TXN {
      assert WrittenOk(log[..j], log[j]);
    }
  }

  lemma FreshEffect(log: seq<LogRecord>, snap: Snapshot, t: TxnId)
    requires LogWritten(log) && snap.txnId > MaxTxn(log) && snap.xmax > MaxTxn(log) && snap.active == {}
      && t != BOOTSTRAP_TXN && t <= MaxTxn(log)
    ensures EffectVisible(t, snap, RecoveredCommits(log)) <==> Commit(t) in log
  {
    RecoveredStatus(log, t);
    UserTxns(log);
  }

  lemma FreshVisible(log: seq<LogRecord>, snap: Snapshot, n: nat)
    requires LogWritten(log) && n < |Fold(log)|
    requires snap.txnId > MaxTxn(log) && snap.xmax > MaxTxn(log) && snap.active == {}
    ensures var v := Fold(log)[n];
      Visible(v.xmin, v.xmax, snap, RecoveredCommits(log))
      <==> Commit(v.xmin) in log && Commit(v.xmax) !in log
  {
    var v := Fold(log)[n];
    WrittenFacts(log);
    MaxTxnBounds(log);
    UserTxns(log);
    assert FromLog(log, v, n);
    FreshEffect(log, snap, v.xmin);
    FreshEffect(log, snap, v.xmax);
  }

  lemma BegunSees(log: seq<LogRecord>, mode: Mode, n: nat)
    requires LogWritten(log) && n < |Fold(log)|
    ensures var r := Begun(Recovered(log), mode);
      && r.vs == Fold(log)
      && (Sees(r, r.next - 1, n) <==> Commit(r.vs[n].xmin) in log && Commit(r.vs[n].xmax) !in log)
  {
    hide LogWritten, Fold, RecoveredCommits;
    var r := Begun(Recovered(log), mode);
    FreshVisible(log, r.txns[r.next - 1].snap, n);
  }

  /** Whatever a crash leaves of the log of a run is a log the store writes. */
  lemma RunLogOk(steps: seq<Step>, s: State, keep: nat)
    requires Run(steps, s) && keep <= |s.log|
    ensures LogOk(s.log[..keep])
  {
    hide Fold;
    RunInv(steps, s);
    LogOkPrefix(s.log, keep);
  }

  /**
   * After recovery, what a fresh snapshot sees is decided by the durable Commit records alone:
   * losers' versions are hidden and losers' stamps ignored, although neither was undone.
   */
  lemma FreshSnapshotAfterCrash(steps: seq<Step>, s: State, keep: nat, mode: Mode, n: nat)
    requires Run(steps, s) && Enabled(s, Crash(keep)) && n < |Fold(s.log[..keep])|
    ensures var log := s.log[..keep];
      var r := Begun(Do(s, Crash(keep)), mode);
      && r.vs == Fold(log)
      && (Sees(r, r.next - 1, n) <==> Commit(r.vs[n].xmin) in log && Commit(r.vs[n].xmax) !in log)
  {
    hide Fold, RecoveredCommits, LogOk, Run, Inv;
    RunLogOk(steps, s, keep);
    LogOkWritten(s.log[..keep]);
    BegunSees(s.log[..keep], mode, n);
  }

  /** Nor does it see two versions of one chain. */
  lemma BegunSeesOne(log: seq<LogRecord>, mode: Mode, a: nat, b: nat)
    requires LogOk(log) && a < |Fold(log)| && b < |Fold(log)| && Root(Fold(log), a) == Root(Fold(log), b)
    ensures var r := Begun(Recovered(log), mode);
      r.vs == Fold(log) && (Sees(r, r.next - 1, a) && Sees(r, r.next - 1, b) ==> a == b)
  {
    hide LogOk, Fold, RecoveredCommits, Inv, Closed, Root;
    BegunInv(log, mode);
    var r := Begun(Recovered(log), mode);
    SeesOne(r, r.next - 1, a, b);
  }

  lemma BegunInv(log: seq<LogRecord>, mode: Mode)
    requires LogOk(log)
    ensures var r := Begun(Recovered(log), mode);
      && Inv(r) && Closed(r) && r.vs == Fold(log)
      && r.next > 0 && r.next - 1 in r.txns && r.txns[r.next - 1].pc.Idle?
  {
    hide LogOk, Fold, RecoveredCommits, Inv, Closed, Settled;
    var s := Recovered(log);
    RecoveredInv(log);
    RecoveredApart(log);
    var s1 := Do(s, Alloc);
    StepKeepsInv(s, Alloc);
    StepKeepsApart(s, Alloc);
    StepKeepsInv(s1, Register(s.next, mode));
    StepKeepsApart(s1, Register(s.next, mode));
  }

  /** After recovery a read from the newest version of a chain finds the one version of it that survived, if any. */
  lemma BegunReads(log: seq<LogRecord>, mode: Mode, h: nat, u: nat)
    requires LogOk(log) && h < |Fold(log)| && u < |Fold(log)| && Root(Fold(log), u) == Root(Fold(log), h)
    requires forall n :: 0 <= n < |Fold(log)| && Root(Fold(log), n) == Root(Fold(log), h) ==> n <= h
    requires Commit(Fold(log)[u].xmin) in log && Commit(Fold(log)[u].xmax) !in log
    ensures var r := Begun(Recovered(log), mode);
      r.next > 0 && r.next - 1 in r.txns && ReadFrom(Fold(log), h, r.txns[r.next - 1].snap, r.commits) == Some(u)
  {
    hide LogOk, Fold, RecoveredCommits, Inv, Closed, Root;
    BegunInv(log, mode);
    LogOkWritten(log);
    BegunSees(log, mode, u);
    var r := Begun(Recovered(log), mode);
    ReadsVisible(r, r.next - 1, h, u);
  }

  /** A read depends on which versions are visible, and on nothing else of the snapshot. */
  lemma {:induction false} ReadFromSame(vs: seq<Version>, n: nat, snap: Snapshot, commits: CommitLog, snap': Snapshot,
                                        commits': CommitLog)
    requires n < |vs|
    requires forall m :: 0 <= m < |vs| ==>
      (Visible(vs[m].xmin, vs[m].xmax, snap, commits) <==> Visible(vs[m].xmin, vs[m].xmax, snap', commits'))
    ensures ReadFrom(vs, n, snap, commits) == ReadFrom(vs, n, snap', commits')
  {
    hide Visible;
    if vs[n].prev.Some? && vs[n].prev.value < n {
      ReadFromSame(vs, vs[n].prev.value, snap, commits, snap', commits');
    }
  }

  lemma LastRecord(log: seq<LogRecord>)
    requires LogWritten(log) && log != []
    ensures var pre, r := log[..|log| - 1], log[|log| - 1];
      LogWritten(pre) && WrittenOk(pre, r) && Fold(log) == Apply(Fold(pre), r)
  {
    LogWrittenPrefix(log, |log| - 1);
  }

  /** Nothing `t` did comes after its Commit record, so a log with that record has all of it. */
  lemma {:induction false} CreatedBefore(log: seq<LogRecord>, k: nat, t: TxnId, n: nat)
    requires LogWritten(log) && k <= |log| && Commit(t) in log[..k]
    requires n < |Fold(log)| && Fold(log)[n].xmin == t
    ensures n < |Fold(log[..k])| && Fold(log[..k])[n].(xmax := NO_TXN) == Fold(log)[n].(xmax := NO_TXN)
  {
    if k == |log| {
      assert log[..k] == log;
    } else {
      hide LogWritten, Fold;
      var pre := log[..|log| - 1];
      LastRecord(log);
      assert log[..k] == pre[..k];
      CreatedBefore(pre, k, t, n);
    }
  }

  lemma {:induction false} StampedBefore(log: seq<LogRecord>, k: nat, t: TxnId, n: nat)
    requires LogWritten(log) && k <= |log| && Commit(t) in log[..k]
    requires n < |Fold(log)| && Fold(log)[n].xmax == t && t != NO_TXN
    ensures n < |Fold(log[..k])| && Fold(log[..k])[n] == Fold(log)[n]
  {
    if k == |log| {
      assert log[..k] == log;
    } else {
      hide LogWritten, Fold;
      var pre := log[..|log| - 1];
      LastRecord(log);
      assert log[..k] == pre[..k];
      StampedBefore(pre, k, t, n);
    }
  }

  /**
   * Durability and atomicity: a read-write transaction whose commit has been recorded is committed
   * after any crash, with every version it made and every stamp it wrote.
   */
  lemma CommitSurvivesCrash(steps: seq<Step>, s: State, keep: nat, t: TxnId)
    requires Run(steps, s) && Enabled(s, Crash(keep))
    requires StatusOf(s.commits, t) == Committed && HasData(s.log, t)
    ensures var r := Do(s, Crash(keep));
      && StatusOf(r.commits, t) == Committed
      && (forall n :: 0 <= n < |s.vs| && s.vs[n].xmin == t ==>
            n < |r.vs| && r.vs[n].(xmax := NO_TXN) == s.vs[n].(xmax := NO_TXN))
      && (forall n :: 0 <= n < |s.vs| && s.vs[n].xmax == t ==> n < |r.vs| && r.vs[n] == s.vs[n])
  {
    RunInv(steps, s);
    var log := s.log[..keep];
    assert DurablyCommitted(s, t);
    assert s.log[..s.durable] == log[..s.durable];
    assert Commit(t) in log;
    LogOkWritten(s.log);
    LogWrittenPrefix(s.log, keep);
    UserTxns(s.log);
    RecoveredStatus(log, t);
    var r := Do(s, Crash(keep));
    forall n | 0 <= n < |s.vs| && s.vs[n].xmin == t
      ensures n < |r.vs| && r.vs[n].(xmax := NO_TXN) == s.vs[n].(xmax := NO_TXN)
    {
      CreatedBefore(s.log, keep, t, n);
    }
    forall n | 0 <= n < |s.vs| && s.vs[n].xmax == t ensures n < |r.vs| && r.vs[n] == s.vs[n] {
      StampedBefore(s.log, keep, t, n);
    }
  }
}
