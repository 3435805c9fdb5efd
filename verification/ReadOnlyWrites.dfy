/**
 * Writes through read-only handles. Nothing in the store looks at a transaction's mode before it writes, but the end
 * of a read-only transaction leaves no record in the log. The runs here are those of `Mvcc` with such writes among
 * them: they commit like any other, are seen like any other, and are gone after a crash.
 */
module ReadOnlyWrites {
  import opened Visibility
  import opened Options
  import opened Mvcc
  import O = Overlap

  ghost predicate AnyExec(s: State, steps: seq<Step>, s': State) {
    if steps == [] then s == s'
    else
      var last := |steps| - 1;
      exists p :: AnyExec(s, steps[..last], p) && Possible(p, steps[last]) && Do(p, steps[last]) == s'
  }

  ghost predicate AnyRun(steps: seq<Step>, s: State) {
    AnyExec(Init, steps, s)
  }

  /** The runs without such writes are among them. */
  lemma {:induction false} ProperIsAny(s: State, steps: seq<Step>, s': State)
    requires Exec(s, steps, s')
    ensures AnyExec(s, steps, s')
  {
    hide Do, Possible, Proper;
    if steps != [] {
      var last := |steps| - 1;
      var p :| Exec(s, steps[..last], p) && Enabled(p, steps[last]) && Do(p, steps[last]) == s';
      ProperIsAny(s, steps[..last], p);
    }
  }

  // ----- What every such run keeps -----

  ghost predicate AnyTxnOk(s: State, t: TxnId)
    requires t in s.txns
  {
    var x := s.txns[t];
    && FIRST_USER_TXN <= t < s.next
    && (!x.pc.Ending? || x.mode == ReadOnly ==> !Ended(s.log, t))
    && (x.pc.Ending? && x.mode == ReadWrite ==> if x.pc.commit then Commit(t) in s.log else Commit(t) !in s.log)
    && (x.pc.Ending? && x.mode == ReadWrite && x.pc.commit && x.pc.phase != Logged ==> DurablyCommitted(s, t))
    && (x.pc.Locked? || x.pc.Validated? || x.pc.Inserted? ==> x.pc.target in s.locks && s.locks[x.pc.target] == t)
    && (x.pc.Validated? || x.pc.Inserted? ==> x.pc.target < |s.vs| && s.vs[x.pc.target].xmax == NO_TXN)
  }

  ghost predicate AnyInv(s: State) {
    && LogWritten(s.log) && s.vs == Fold(s.log) && s.durable <= |s.log| && s.next >= FIRST_USER_TXN
    && (forall j :: 0 <= j < |s.log| ==> s.log[j].txn < s.next)
    && (forall t :: t in s.txns ==> AnyTxnOk(s, t))
    && (forall p :: p in s.pending ==> FIRST_USER_TXN <= p < s.next && p !in s.txns
                                       && forall j :: 0 <= j < |s.log| ==> s.log[j].txn != p)
  }

  lemma WrittenAppend(log: seq<LogRecord>, r: LogRecord)
    requires LogWritten(log) && WrittenOk(log, r)
    ensures LogWritten(log + [r]) && Fold(log + [r]) == Apply(Fold(log), r)
  {
    FoldAppend(log, r);
    forall j | 0 <= j < |log + [r]| ensures WrittenOk((log + [r])[..j], (log + [r])[j]) {
      if j < |log| {
        assert (log + [r])[..j] == log[..j];
      } else {
        assert (log + [r])[..j] == log;
      }
    }
  }

  /** The record a step appends to the log, if it appends one. */
  function Logs(s: State, step: Step): seq<LogRecord>
    requires Possible(s, step)
  {
    match step
    case DoInsert(t, data) => [Insert(t, None, data)]
    case InsertNew(t) => [Insert(t, Some(s.txns[t].pc.target), s.txns[t].pc.op.data)]
    case DoStamp(t) => [Stamp(t, s.txns[t].pc.target, s.txns[t].pc.Validated?)]
    case LogEnd(t, commit) =>
      if s.txns[t].mode == ReadOnly then [] else [if commit then Commit(t) else Abort(t)]
    case _ => []
  }

  lemma LogsOk(s: State, step: Step)
    requires AnyInv(s) && Possible(s, step) && !step.Crash?
    ensures var s' := Do(s, step);
      && s'.log == s.log + Logs(s, step) && |Logs(s, step)| <= 1
      && LogWritten(s'.log) && s'.vs == Fold(s'.log)
      && (forall j :: 0 <= j < |s'.log| ==> s'.log[j].txn < s'.next)
  {
    hide LogWritten, Fold;
    if Logs(s, step) != [] {
      assert AnyTxnOk(s, step.t);
      assert WrittenOk(s.log, Logs(s, step)[0]);
      WrittenAppend(s.log, Logs(s, step)[0]);
    }
  }

  lemma KeepAnyTxn(s: State, step: Step, u: TxnId)
    requires AnyInv(s) && Possible(s, step) && !step.Crash? && u in Do(s, step).txns
    ensures AnyTxnOk(Do(s, step), u)
  {
    hide LogWritten, Fold, DurablyCommitted;
    LogsOk(s, step);
    KeepDurable(s, step, u);
    if step.Alloc? {
      assert AnyTxnOk(s, u);
    } else if step.t == u {
      OwnStep(s, step);
    } else {
      OtherStep(s, step, u);
    }
  }

  lemma OwnStep(s: State, step: Step)
    requires AnyInv(s) && Possible(s, step) && !step.Crash? && !step.Alloc? && step.t in Do(s, step).txns
    requires Do(s, step).log == s.log + Logs(s, step)
    requires DurablyCommitted(s, step.t) ==> DurablyCommitted(Do(s, step), step.t)
    ensures AnyTxnOk(Do(s, step), step.t)
  {
    hide LogWritten, Fold;
    if step.t in s.txns { assert AnyTxnOk(s, step.t); }
  }

  lemma OtherStep(s: State, step: Step, u: TxnId)
    requires AnyInv(s) && Possible(s, step) && !step.Crash? && !step.Alloc? && step.t != u && u in Do(s, step).txns
    requires Do(s, step).log == s.log + Logs(s, step)
    requires DurablyCommitted(s, u) ==> DurablyCommitted(Do(s, step), u)
    ensures AnyTxnOk(Do(s, step), u)
  {
    OtherFrame(s, step, u);
    if s.txns[u].pc.Validated? || s.txns[u].pc.Inserted? { OtherVersions(s, step, u); }
    hide LogWritten, Fold, DurablyCommitted, Do;
    assert AnyTxnOk(s, u);
    assert forall r :: r in Logs(s, step) ==> r.txn == step.t;
    assert Ended(Do(s, step).log, u) == Ended(s.log, u);
  }

  lemma OtherFrame(s: State, step: Step, u: TxnId)
    requires Possible(s, step) && !step.Crash? && !step.Alloc? && step.t != u && u in Do(s, step).txns
    ensures var s' := Do(s, step);
      && u in s.txns && s'.txns[u] == s.txns[u] && s.next == s'.next
      && forall i :: i in s.locks && s.locks[i] == u ==> i in s'.locks && s'.locks[i] == u
  {
  }

  lemma OtherVersions(s: State, step: Step, u: TxnId)
    requires AnyInv(s) && Possible(s, step) && !step.Crash? && !step.Alloc? && step.t != u && u in s.txns
    requires s.txns[u].pc.Validated? || s.txns[u].pc.Inserted?
    ensures var i := s.txns[u].pc.target;
      i < |s.vs| <= |Do(s, step).vs| && Do(s, step).vs[i].xmax == s.vs[i].xmax
  {
    hide LogWritten, Fold, DurablyCommitted, Ended;
    assert AnyTxnOk(s, u);
    if step.DoStamp? { assert AnyTxnOk(s, step.t); }
  }

  lemma KeepDurable(s: State, step: Step, u: TxnId)
    requires Possible(s, step) && !step.Crash? && s.durable <= |s.log|
    requires Do(s, step).log == s.log + Logs(s, step)
    ensures s.durable <= Do(s, step).durable <= |Do(s, step).log|
    ensures DurablyCommitted(s, u) ==> DurablyCommitted(Do(s, step), u)
  {
    var s' := Do(s, step);
    if DurablyCommitted(s, u) {
      var j :| 0 <= j < s.durable && s.log[j] == Commit(u);
      assert s'.log[..s'.durable][j] == Commit(u);
    }
  }

  lemma AnyStep(s: State, step: Step)
    requires AnyInv(s) && Possible(s, step)
    ensures AnyInv(Do(s, step))
  {
    if step.Crash? {
      hide Fold;
      var log := s.log[..step.keep];
      LogWrittenPrefix(s.log, step.keep);
      MaxTxnBounds(log);
    } else {
      hide LogWritten, Fold, AnyTxnOk, DurablyCommitted;
      LogsOk(s, step);
      KeepDurable(s, step, NO_TXN);
      forall u | u in Do(s, step).txns ensures AnyTxnOk(Do(s, step), u) {
        KeepAnyTxn(s, step, u);
      }
      KeepAnyPending(s, step);
    }
  }

  lemma KeepAnyPending(s: State, step: Step)
    requires AnyInv(s) && Possible(s, step) && !step.Crash?
    ensures var s' := Do(s, step);
      forall p :: p in s'.pending ==> FIRST_USER_TXN <= p < s'.next && p !in s'.txns
                                      && forall j :: 0 <= j < |s'.log| ==> s'.log[j].txn != p
  {
    hide LogWritten, Fold, DurablyCommitted, Ended;
    LogsOk(s, step);
    assert forall t :: t in s.txns ==> t < s.next;
  }

  lemma {:induction false} AnyExecInv(s: State, steps: seq<Step>, s': State)
    requires AnyInv(s) && AnyExec(s, steps, s')
    ensures AnyInv(s')
  {
    hide AnyInv, Do, Possible;
    if steps != [] {
      var last := |steps| - 1;
      var p :| AnyExec(s, steps[..last], p) && Possible(p, steps[last]) && Do(p, steps[last]) == s';
      AnyExecInv(s, steps[..last], p);
      AnyStep(p, steps[last]);
    }
  }

  lemma AnyRunInv(steps: seq<Step>, s: State)
    requires AnyRun(steps, s)
    ensures AnyInv(s)
  {
    assert AnyInv(Init);
    AnyExecInv(Init, steps, s);
  }

  /** Whoever writes, no version's xmax is written twice. */
  lemma AnyStampedOnce(steps: seq<Step>, s: State, i: nat, j: nat)
    requires AnyRun(steps, s) && i < j < |s.log| && s.log[i].Stamp? && s.log[j].Stamp?
    ensures s.log[i].target != s.log[j].target
  {
    AnyRunInv(steps, s);
    StampedOnceInLog(s.log, i, j);
  }

  // ----- What a crash leaves of a committed transaction -----

  /** `t` has committed in this mode, as the log has it. */
  ghost predicate Fate(s: State, t: TxnId, mode: Mode) {
    && FIRST_USER_TXN <= t < s.next && t !in s.pending
    && (t in s.txns ==> s.txns[t].mode == mode && Past(s.txns[t].pc))
    && if mode == ReadOnly then !Ended(s.log, t) else DurablyCommitted(s, t)
  }

  /** The durability point of a commit is behind. */
  predicate Past(pc: Pc) {
    pc.Ending? && pc.commit && pc.phase != Logged
  }

  lemma FateStart(s: State, t: TxnId)
    requires AnyInv(s) && t in s.txns && Past(s.txns[t].pc)
    ensures Fate(s, t, s.txns[t].mode)
  {
    hide LogWritten, Fold;
    assert AnyTxnOk(s, t);
  }

  lemma FateStep(s: State, step: Step, t: TxnId, mode: Mode)
    requires AnyInv(s) && Possible(s, step) && !step.Crash? && Fate(s, t, mode)
    ensures Fate(Do(s, step), t, mode)
  {
    hide LogWritten, Fold, AnyTxnOk, DurablyCommitted;
    LogsOk(s, step);
    KeepDurable(s, step, t);
  }

  lemma {:induction false} FateExec(s: State, steps: seq<Step>, s': State, t: TxnId, mode: Mode)
    requires AnyInv(s) && Fate(s, t, mode) && AnyExec(s, steps, s') && forall step :: step in steps ==> !step.Crash?
    ensures AnyInv(s') && Fate(s', t, mode)
  {
    hide AnyInv, Fate, Do, Possible;
    if steps != [] {
      var last := |steps| - 1;
      var p :| AnyExec(s, steps[..last], p) && Possible(p, steps[last]) && Do(p, steps[last]) == s';
      assert steps[last] in steps;
      FateExec(s, steps[..last], p, t, mode);
      FateStep(p, steps[last], t, mode);
      AnyStep(p, steps[last]);
    }
  }

  /** A transaction that begins after recovery from `log` finds version `n`, created by `t`, and sees it created. */
  ghost predicate FoundAfter(log: seq<LogRecord>, n: nat, t: TxnId) {
    var r := Begun(Recovered(log), ReadOnly);
    n < |r.vs| && r.vs[n].xmin == t && EffectVisible(t, r.txns[r.next - 1].snap, r.commits)
  }

  /** It finds version `n` stamped by `t`, and counts the stamp. */
  ghost predicate StampFoundAfter(log: seq<LogRecord>, n: nat, t: TxnId) {
    var r := Begun(Recovered(log), ReadOnly);
    n < |r.vs| && r.vs[n].xmax == t && EffectVisible(t, r.txns[r.next - 1].snap, r.commits)
  }

  lemma FateLog(s: State, t: TxnId, mode: Mode, keep: nat)
    requires AnyInv(s) && Fate(s, t, mode) && Possible(s, Crash(keep))
    ensures LogWritten(s.log[..keep]) && (Commit(t) in s.log[..keep] <==> mode == ReadWrite)
  {
    hide Fold, AnyTxnOk;
    LogWrittenPrefix(s.log, keep);
    hide LogWritten;
    if mode == ReadWrite {
      var j :| 0 <= j < s.durable && s.log[j] == Commit(t);
      assert s.log[..keep][j] == Commit(t);
    }
  }

  lemma FreshSeesTxn(log: seq<LogRecord>, t: TxnId, n: nat)
    requires LogWritten(log) && n < |Fold(log)| && (Fold(log)[n].xmin == t || Fold(log)[n].xmax == t) && t != NO_TXN
    ensures var r := Begun(Recovered(log), ReadOnly);
      EffectVisible(t, r.txns[r.next - 1].snap, r.commits) <==> Commit(t) in log
  {
    hide LogWritten, Fold, RecoveredCommits;
    InLog(log, t, n);
    var r := Begun(Recovered(log), ReadOnly);
    FreshEffect(log, r.txns[r.next - 1].snap, t);
  }

  lemma InLog(log: seq<LogRecord>, t: TxnId, n: nat)
    requires LogWritten(log) && n < |Fold(log)| && (Fold(log)[n].xmin == t || Fold(log)[n].xmax == t) && t != NO_TXN
    ensures FIRST_USER_TXN <= t <= MaxTxn(log)
  {
    hide LogWritten, Fold;
    WrittenFacts(log);
    MaxTxnBounds(log);
    UserTxns(log);
    assert FromLog(log, Fold(log)[n], n);
  }

  /**
   * What a committed transaction wrote is there after a crash, whenever the crash comes, if and only if the
   * transaction was read-write.
   */
  lemma WritesSurviveIff(steps: seq<Step>, s: State, t: TxnId, more: seq<Step>, s': State, keep: nat, n: nat)
    requires AnyRun(steps, s) && t in s.txns && Past(s.txns[t].pc)
    requires AnyExec(s, more, s') && (forall step :: step in more ==> !step.Crash?) && Possible(s', Crash(keep))
    requires n < |s'.vs|
    ensures s'.vs[n].xmin == t ==> (FoundAfter(s'.log[..keep], n, t) <==> s.txns[t].mode == ReadWrite)
    ensures s'.vs[n].xmax == t ==> (StampFoundAfter(s'.log[..keep], n, t) <==> s.txns[t].mode == ReadWrite)
  {
    hide Do, Possible, AnyExec;
    AnyRunInv(steps, s);
    FateStart(s, t);
    FateExec(s, more, s', t, s.txns[t].mode);
    FoundIff(s', t, s.txns[t].mode, keep, n);
  }

  lemma FoundIff(s: State, t: TxnId, mode: Mode, keep: nat, n: nat)
    requires AnyInv(s) && Fate(s, t, mode) && Possible(s, Crash(keep)) && n < |s.vs|
    ensures s.vs[n].xmin == t ==> (FoundAfter(s.log[..keep], n, t) <==> mode == ReadWrite)
    ensures s.vs[n].xmax == t ==> (StampFoundAfter(s.log[..keep], n, t) <==> mode == ReadWrite)
  {
    hide Fold, AnyTxnOk, DurablyCommitted, LogWritten, RecoveredCommits;
    var log := s.log[..keep];
    FateLog(s, t, mode, keep);
    if n < |Fold(log)| && (Fold(log)[n].xmin == t || Fold(log)[n].xmax == t) { FreshSeesTxn(log, t, n); }
    if mode == ReadWrite {
      if s.vs[n].xmin == t { CreatedBefore(s.log, keep, t, n); }
      if s.vs[n].xmax == t { StampedBefore(s.log, keep, t, n); }
    }
  }

  // ----- Building on such writes -----

  /**
   * If a committed version `a` was replaced by one whose creator left no Commit record, and that one by a committed
   * version `c`, a transaction that begins after recovery sees both `a` and `c`.
   */
  lemma ForkAfter(log: seq<LogRecord>, a: nat, b: nat, c: nat)
    requires LogWritten(log) && a < |Fold(log)| && b < |Fold(log)| && c < |Fold(log)|
    requires Fold(log)[b].prev == Some(a) && Fold(log)[c].prev == Some(b) && Fold(log)[a].xmax == Fold(log)[b].xmin
    requires Commit(Fold(log)[a].xmin) in log && Commit(Fold(log)[b].xmin) !in log
    requires Commit(Fold(log)[c].xmin) in log && Commit(Fold(log)[c].xmax) !in log
    ensures var r := Begun(Recovered(log), ReadOnly);
      && r.vs == Fold(log) && a < c && Root(r.vs, a) == Root(r.vs, c)
      && Sees(r, r.next - 1, a) && Sees(r, r.next - 1, c)
  {
    WrittenFacts(log);
    hide LogWritten, Fold, RecoveredCommits;
    var vs := Fold(log);
    assert FromLog(log, vs[b], b) && FromLog(log, vs[c], c);
    OneChain(vs, a, b, c);
    hide FromLog, Root, Sees, Begun, Recovered;
    BegunSees(log, ReadOnly, a);
    BegunSees(log, ReadOnly, c);
  }

  lemma OneChain(vs: seq<Version>, a: nat, b: nat, c: nat)
    requires a < b < c < |vs| && vs[b].prev == Some(a) && vs[c].prev == Some(b)
    ensures Root(vs, a) == Root(vs, c)
  {
    assert Root(vs, c) == Root(vs, b);
  }

  ghost predicate Reached(s: State) {
    exists steps :: AnyRun(steps, s)
  }

  lemma ReachedStep(s: State, step: Step)
    requires Reached(s) && Possible(s, step)
    ensures Reached(Do(s, step))
  {
    var steps :| AnyRun(steps, s);
    assert (steps + [step])[..|steps|] == steps;
    assert AnyRun(steps + [step], Do(s, step));
  }

  lemma Begins(s: State, mode: Mode)
    requires Reached(s)
    ensures Reached(Begun(s, mode))
  {
    hide Reached;
    ReachedStep(s, Alloc);
    ReachedStep(Do(s, Alloc), Register(s.next, mode));
  }

  lemma Replaces(s: State, t: TxnId, i: nat, data: Payload)
    requires Reached(s) && t in s.txns && s.txns[t].pc.Idle? && i < |s.vs| && i !in s.locks
    requires CheckWritable(s.vs[i].xmin, s.vs[i].xmax, s.txns[t].snap, s.commits)
    ensures Reached(O.Updated(s, t, i, data))
  {
    hide Reached, CheckWritable;
    ReachedStep(s, Lock(t, i, Update(data)));
    var s1 := Do(s, Lock(t, i, Update(data)));
    ReachedStep(s1, Validate(t));
    var s2 := Do(s1, Validate(t));
    ReachedStep(s2, InsertNew(t));
    var s3 := Do(s2, InsertNew(t));
    ReachedStep(s3, DoStamp(t));
    assert Do(s3, DoStamp(t)).txns == s.txns;
    assert Do(s3, DoStamp(t)).vs == O.Updated(s, t, i, data).vs;
  }

  /** After a whole `commit` by `t`. */
  function Left(s: State, t: TxnId): State
    requires t in s.txns
  {
    var log := if s.txns[t].mode == ReadOnly then s.log else s.log + [Commit(t)];
    s.(log := log, durable := if s.txns[t].mode == ReadOnly then s.durable else |log|,
       commits := s.commits[t := Committed], locks := map i | i in s.locks && s.locks[i] != t :: s.locks[i],
       txns := s.txns - {t})
  }

  lemma CommitsLogged(s: State, t: TxnId) returns (s': State)
    requires Reached(s) && t in s.txns && s.txns[t].pc.Idle?
    ensures Reached(s')
    ensures s' == s.(log := Left(s, t).log, durable := Left(s, t).durable,
                     txns := s.txns[t := s.txns[t].(pc := Ending(true, Flushed))])
  {
    hide Reached;
    ReachedStep(s, LogEnd(t, true));
    var s1 := Do(s, LogEnd(t, true));
    ReachedStep(s1, Flush(t));
    s' := Do(s1, Flush(t));
    assert s'.txns == s.txns[t := s.txns[t].(pc := Ending(true, Flushed))];
  }

  lemma CommitsAll(s: State, t: TxnId)
    requires Reached(s) && t in s.txns && s.txns[t].pc.Idle?
    ensures Reached(Left(s, t))
  {
    hide Reached;
    var s2 := CommitsLogged(s, t);
    ReachedStep(s2, RecordEnd(t));
    var s3 := Do(s2, RecordEnd(t));
    ReachedStep(s3, Release(t));
    var s4 := Do(s3, Release(t));
    ReachedStep(s4, Leave(t));
    assert Do(s4, Leave(t)).txns == Left(s, t).txns;
  }

  /** Everything is committed, durable and unlocked, and nobody is running. */
  ghost predicate Quiet(s: State, next: TxnId, log: seq<LogRecord>, vs: seq<Version>) {
    && Reached(s) && s.next == next && s.pending == {} && s.txns == map[] && s.locks == map[]
    && s.log == log && s.vs == vs
  }

  /** One transaction opens an account. */
  lemma Opens(x: Payload) returns (s: State)
    ensures Quiet(s, 3, [Insert(2, None, x), Commit(2)], [Version(2, NO_TXN, None, x)])
    ensures StatusOf(s.commits, 2) == Committed && s.durable == |s.log|
  {
    assert AnyRun([], Init);
    assert Reached(Init);
    hide Reached;
    Begins(Init, ReadWrite);
    var s1 := Begun(Init, ReadWrite);
    ReachedStep(s1, DoInsert(2, x));
    var s2 := Do(s1, DoInsert(2, x));
    CommitsAll(s2, 2);
    s := Left(s2, 2);
  }

  /** The next transaction, in either mode, replaces version `i` and commits. */
  lemma UpdatesNext(s: State, t: TxnId, mode: Mode, i: nat, data: Payload, log: seq<LogRecord>, vs: seq<Version>)
    returns (s': State)
    requires Quiet(s, t, log, vs) && FIRST_USER_TXN <= t && i < |vs| && vs[i].xmax == NO_TXN
    requires vs[i].xmin < t && vs[i].xmin != NO_TXN && StatusOf(s.commits, vs[i].xmin) == Committed
    ensures Quiet(s', t + 1,
                  log + [Insert(t, Some(i), data)] + [Stamp(t, i, false)]
                    + if mode == ReadOnly then [] else [Commit(t)],
                  vs[i := vs[i].(xmax := t)] + [Version(t, NO_TXN, Some(i), data)])
    ensures StatusOf(s'.commits, t) == Committed
    ensures s'.durable == if mode == ReadOnly then s.durable else |s'.log|
  {
    hide Reached;
    Begins(s, mode);
    var s1 := Begun(s, mode);
    assert s1.txns[t] == Txn(Snapshot(t, t + 1, {}), mode, Idle);
    Replaces(s1, t, i, data);
    var s2 := O.Updated(s1, t, i, data);
    CommitsAll(s2, t);
    s' := Left(s2, t);
    assert s'.txns == map[] && s'.locks == map[];
  }

  /** An account is opened, updated through a read-only handle and then through a read-write one, all committed. */
  lemma TwiceUpdated(x: Payload, y: Payload, z: Payload) returns (s: State)
    ensures Reached(s) && s.durable == |s.log|
    ensures s.log == [Insert(2, None, x), Commit(2), Insert(3, Some(0), y), Stamp(3, 0, false),
                      Insert(4, Some(1), z), Stamp(4, 1, false), Commit(4)]
    ensures s.vs == [Version(2, 3, None, x), Version(3, 4, Some(0), y), Version(4, NO_TXN, Some(1), z)]
  {
    hide Reached;
    var s1 := Opens(x);
    var s2 := UpdatesNext(s1, 3, ReadOnly, 0, y, s1.log, s1.vs);
    s := UpdatesNext(s2, 4, ReadWrite, 1, z, s2.log, s2.vs);
  }

  /** After a crash then, a new transaction finds both the first balance of the account and the last. */
  lemma ReadOnlyWriteForks(x: Payload, y: Payload, z: Payload) returns (s: State, r: State)
    ensures Reached(s) && Possible(s, Crash(|s.log|)) && r == Begun(Do(s, Crash(|s.log|)), ReadOnly)
    ensures |r.vs| == 3 && Root(r.vs, 0) == Root(r.vs, 2) && r.vs[0].data == x && r.vs[2].data == z
    ensures Sees(r, r.next - 1, 0) && Sees(r, r.next - 1, 2)
  {
    s := TwiceUpdated(x, y, z);
    var log := s.log;
    assert log[..|log|] == log;
    r := Begun(Recovered(log), ReadOnly);
    assert AnyInv(s) by {
      var steps :| AnyRun(steps, s);
      AnyRunInv(steps, s);
    }
    ForkAfter(log, 0, 1, 2);
  }
}
