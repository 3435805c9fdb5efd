/**
 * What goes wrong when begins overlap. `begin` allocates its id before it takes the active-set lock, so
 * an id may be waiting while another transaction takes its snapshot. Such an id is neither active nor
 * beyond the snapshot: it is counted as over before it has started.
 */
module Overlap {
  import opened Visibility
  import opened Options
  import opened Mvcc

  // ----- Runs put together -----

  ghost predicate Reaches(s: State, s': State) {
    exists steps :: Exec(s, steps, s')
  }

  /** As `Reaches`, but `t` does nothing and there is no crash. */
  ghost predicate OthersReach(s: State, s': State, t: TxnId) {
    exists steps :: Exec(s, steps, s') && Others(steps, t)
  }

  predicate Others(steps: seq<Step>, t: TxnId) {
    forall step :: step in steps ==> !StepBy(step, t) && !step.Crash?
  }

  lemma ExecStep(s: State, steps: seq<Step>, p: State, step: Step)
    requires Exec(s, steps, p) && Enabled(p, step)
    ensures Exec(s, steps + [step], Do(p, step))
  {
    assert (steps + [step])[..|steps|] == steps;
  }

  lemma ReachesSelf(s: State)
    ensures Reaches(s, s)
  {
    assert Exec(s, [], s);
  }

  lemma ReachesStep(s: State, p: State, step: Step)
    requires Reaches(s, p) && Enabled(p, step)
    ensures Reaches(s, Do(p, step))
  {
    var steps :| Exec(s, steps, p);
    hide Exec;
    ExecStep(s, steps, p, step);
  }

  lemma OthersSelf(s: State, t: TxnId)
    ensures OthersReach(s, s, t)
  {
    assert Exec(s, [], s) && Others([], t);
  }

  lemma OthersStep(s: State, p: State, step: Step, t: TxnId)
    requires OthersReach(s, p, t) && Enabled(p, step) && !StepBy(step, t) && !step.Crash?
    ensures OthersReach(s, Do(p, step), t)
  {
    var steps :| Exec(s, steps, p) && Others(steps, t);
    hide Exec;
    ExecStep(s, steps, p, step);
    assert Others(steps + [step], t);
  }

  lemma ExecNone(s: State, s': State)
    requires Exec(s, [], s')
    ensures s' == s
  {
  }

  lemma ExecLast(s: State, steps: seq<Step>, s': State) returns (p: State)
    requires Exec(s, steps, s') && steps != []
    ensures var last := |steps| - 1;
      Exec(s, steps[..last], p) && Enabled(p, steps[last]) && Do(p, steps[last]) == s'
  {
    hide Do, Possible, Proper;
    var last := |steps| - 1;
    p :| Exec(s, steps[..last], p) && Enabled(p, steps[last]) && Do(p, steps[last]) == s';
  }

  lemma {:induction false} ExecJoin(s: State, a: seq<Step>, m: State, b: seq<Step>, s': State)
    requires Exec(s, a, m) && Exec(m, b, s')
    ensures Exec(s, a + b, s')
  {
    hide Exec, Do, Enabled;
    if b == [] {
      ExecNone(m, s');
      assert a + b == a;
    } else {
      var last := |b| - 1;
      var p := ExecLast(m, b, s');
      ExecJoin(s, a, m, b[..last], p);
      ExecStep(s, a + b[..last], p, b[last]);
      assert a + b[..last] + [b[last]] == a + b;
    }
  }

  lemma ReachesJoin(s: State, m: State, s': State)
    requires Reaches(s, m) && Reaches(m, s')
    ensures Reaches(s, s')
  {
    var a :| Exec(s, a, m);
    var b :| Exec(m, b, s');
    ExecJoin(s, a, m, b, s');
  }

  // ----- Whole operations, run without interruption -----

  predicate Ready(s: State, t: TxnId) {
    t in s.txns && s.txns[t].pc.Idle? && s.txns[t].mode == ReadWrite
  }

  /** After `t` has replaced version `i`. */
  function Updated(s: State, t: TxnId, i: nat, data: Payload): State
    requires i < |s.vs|
  {
    s.(locks := s.locks[i := t],
       log := s.log + [Insert(t, Some(i), data)] + [Stamp(t, i, false)],
       vs := s.vs[i := s.vs[i].(xmax := t)] + [Version(t, NO_TXN, Some(i), data)])
  }

  lemma Updates(s: State, t: TxnId, i: nat, data: Payload)
    requires Ready(s, t) && i < |s.vs| && (i in s.locks ==> s.locks[i] == t)
    requires CheckWritable(s.vs[i].xmin, s.vs[i].xmax, s.txns[t].snap, s.commits)
    ensures Reaches(s, Updated(s, t, i, data))
  {
    hide Reaches, CheckWritable;
    var a := Do(s, Lock(t, i, Update(data)));
    var b := Do(a, Validate(t));
    var c := Do(b, InsertNew(t));
    var d := Do(c, DoStamp(t));
    ReachesSelf(s);
    ReachesStep(s, s, Lock(t, i, Update(data)));
    ReachesStep(s, a, Validate(t));
    ReachesStep(s, b, InsertNew(t));
    ReachesStep(s, c, DoStamp(t));
    assert d.txns == s.txns;
    assert d.vs == Updated(s, t, i, data).vs;
  }

  /** After `t` has committed and released its locks, but not yet left the active set. */
  function Committing(s: State, t: TxnId): State
    requires t in s.txns
  {
    s.(log := s.log + [Commit(t)], durable := |s.log| + 1, commits := s.commits[t := Committed],
       locks := map i | i in s.locks && s.locks[i] != t :: s.locks[i],
       txns := s.txns[t := s.txns[t].(pc := Ending(true, Released))])
  }

  lemma Commits(s: State, t: TxnId)
    requires Ready(s, t)
    ensures Reaches(s, Committing(s, t))
  {
    hide Reaches;
    var a := Do(s, LogEnd(t, true));
    var b := Do(a, Flush(t));
    var c := Do(b, RecordEnd(t));
    var d := Do(c, Release(t));
    ReachesSelf(s);
    ReachesStep(s, s, LogEnd(t, true));
    ReachesStep(s, a, Flush(t));
    ReachesStep(s, b, RecordEnd(t));
    ReachesStep(s, c, Release(t));
    assert d.txns == Committing(s, t).txns;
  }

  function Gone(s: State, t: TxnId): State
    requires t in s.txns
  {
    var c := Committing(s, t);
    c.(txns := c.txns - {t})
  }

  lemma CommitsAndLeaves(s: State, t: TxnId)
    requires Ready(s, t)
    ensures Reaches(s, Gone(s, t))
  {
    Commits(s, t);
    ReachesStep(s, Committing(s, t), Leave(t));
  }

  /** After `t` has inserted `k` rows. */
  function WithRows(s: State, t: TxnId, k: nat): State {
    if k == 0 then s else Append(WithRows(s, t, k - 1), Insert(t, None, 0))
  }

  lemma {:induction false} InsertsRows(s: State, t: TxnId, k: nat)
    requires Ready(s, t)
    ensures Reaches(s, WithRows(s, t, k))
    ensures var s' := WithRows(s, t, k);
      && s' == s.(log := s'.log, vs := s'.vs) && |s'.vs| == |s.vs| + k
      && forall n :: |s.vs| <= n < |s.vs| + k ==> s'.vs[n] == Version(t, NO_TXN, None, 0)
  {
    if k == 0 {
      ReachesSelf(s);
    } else {
      InsertsRows(s, t, k - 1);
      ReachesStep(s, WithRows(s, t, k - 1), DoInsert(t, 0));
    }
  }

  // ----- Stability -----

  /** Whatever the others do from here on, `t` sees the same versions and no new ones. */
  ghost predicate SeesTheSame(s: State, t: TxnId)
    requires t in s.txns
  {
    forall s' :: OthersReach(s, s', t) ==>
      && t in s'.txns && |s.vs| <= |s'.vs|
      && (forall n :: 0 <= n < |s.vs| ==> Sees(s', t, n) == Sees(s, t, n) && s'.vs[n].data == s.vs[n].data)
      && (forall n :: |s.vs| <= n < |s'.vs| ==> !Sees(s', t, n))
  }

  lemma LateRow(s: State, t: TxnId, p: TxnId) returns (s': State)
    requires p in s.pending && p != t && t in s.txns
    ensures OthersReach(s, s', t) && s'.txns.Keys == s.txns.Keys + {p} && s'.txns[t] == s.txns[t]
    ensures s'.vs == s.vs + [Version(p, NO_TXN, None, 0)] && s'.commits == s.commits[p := Committed]
  {
    hide OthersReach;
    var a := Do(s, Register(p, ReadWrite));
    var b := Do(a, DoInsert(p, 0));
    var c := Do(b, LogEnd(p, true));
    var d := Do(c, Flush(p));
    s' := Do(d, RecordEnd(p));
    OthersSelf(s, t);
    OthersStep(s, s, Register(p, ReadWrite), t);
    OthersStep(s, a, DoInsert(p, 0), t);
    OthersStep(s, b, LogEnd(p, true), t);
    OthersStep(s, c, Flush(p), t);
    OthersStep(s, d, RecordEnd(p), t);
  }

  /** A waiting id can still start, write and commit, and `t` then sees what it wrote. */
  lemma LateRowAppears(s: State, t: TxnId, mode: Mode, p: TxnId)
    requires Inv(s) && Enabled(s, Register(t, mode)) && p in s.pending && p != t
    ensures !SeesTheSame(Do(s, Register(t, mode)), t)
  {
    assert PendingOk(s);
    hide OthersReach, Inv;
    var s0 := Do(s, Register(t, mode));
    var s1 := LateRow(s0, t, p);
    assert Sees(s1, t, |s.vs|);
  }

  /**
   * Exactly when what a transaction sees is stable: nobody else was between the two steps of `begin`
   * when it took its snapshot. In every reachable state, both directions.
   */
  lemma StableIff(steps: seq<Step>, s: State, t: TxnId, mode: Mode)
    requires Run(steps, s) && Enabled(s, Register(t, mode))
    ensures SeesTheSame(Do(s, Register(t, mode)), t) <==> s.pending == {t}
  {
    RunInv(steps, s);
    var s0 := Do(s, Register(t, mode));
    if s.pending == {t} {
      StepKeepsInv(s, Register(t, mode));
      SettledStart(s, t, mode);
      forall s' | OthersReach(s0, s', t)
        ensures t in s'.txns && |s0.vs| <= |s'.vs|
        ensures forall n :: 0 <= n < |s0.vs| ==> Sees(s', t, n) == Sees(s0, t, n) && s'.vs[n].data == s0.vs[n].data
        ensures forall n :: |s0.vs| <= n < |s'.vs| ==> !Sees(s', t, n)
      {
        var more :| Exec(s0, more, s') && Others(more, t);
        SnapshotStable(s0, more, s', t);
      }
    } else {
      var p :| p in s.pending && p != t;
      LateRowAppears(s, t, mode, p);
    }
  }

  // ----- Two versions of one row -----

  ghost predicate ShowsTwo(s: State) {
    exists v, a, b :: v in s.txns && s.txns[v].pc.Idle? && 0 <= a < b < |s.vs| && Root(s.vs, a) == Root(s.vs, b)
                      && Sees(s, v, a) && Sees(s, v, b)
  }

  lemma {:induction false} Bound(keys: set<nat>) returns (k: nat)
    ensures forall i :: i in keys ==> i < k
  {
    if keys == {} {
      k := 0;
    } else {
      var x :| x in keys;
      var m := Bound(keys - {x});
      k := if m <= x then x + 1 else m;
      forall i | i in keys ensures i < k {
        if i != x { assert i in keys - {x}; }
      }
    }
  }

  lemma Begins(s: State, mode: Mode)
    ensures Reaches(s, Begun(s, mode))
    ensures Begun(s, mode) == s.(next := s.next + 1, pending := s.pending - {s.next},
                                 txns := s.txns[s.next := Txn(Snapshot(s.next, s.next + 1, s.txns.Keys), mode, Idle)])
  {
    hide Reaches;
    ReachesSelf(s);
    ReachesStep(s, s, Alloc);
    ReachesStep(s, Do(s, Alloc), Register(s.next, mode));
    assert s.pending + {s.next} - {s.next} == s.pending - {s.next};
  }

  /** `s'` has one more row than `s` to write to, number `a`, by a transaction that has come and gone. */
  ghost predicate RowAdded(s: State, s': State, a: nat) {
    && s'.next == s.next + 1 && s'.pending == s.pending && s'.txns == s.txns
    && s'.commits == s.commits[s.next := Committed]
    && |s'.vs| == a + 1 && s'.vs[a] == Version(s.next, NO_TXN, None, 0)
    && forall i :: i in s'.locks ==> i < a
  }

  lemma FreeRow(s: State) returns (s': State, a: nat)
    requires s.next !in s.txns && s.next !in s.pending
    ensures Reaches(s, s') && RowAdded(s, s', a)
  {
    hide Reaches;
    var q := s.next;
    Begins(s, ReadWrite);
    var s1 := Begun(s, ReadWrite);
    var k := Bound(s.locks.Keys);
    InsertsRows(s1, q, k + 1);
    var s2 := WithRows(s1, q, k + 1);
    CommitsAndLeaves(s2, q);
    s' := Gone(s2, q);
    a := |s.vs| + k;
    ReachesJoin(s, s1, s2);
    ReachesJoin(s, s2, s');
    hide WithRows, Begun;
    assert s'.txns == s.txns;
  }

  /** Where the two writers stand when the row is theirs to replace: `t` counts `p` as over. */
  ghost predicate Poised(s: State, t: TxnId, p: TxnId, q: TxnId, a: nat) {
    && Ready(s, t) && Ready(s, p) && p != t && q != NO_TXN && p != NO_TXN && t != NO_TXN && q != t && q != p
    && p < s.next && t < s.next && q < s.next && q !in s.txns && StatusOf(s.commits, q) == Committed
    && s.txns[p].snap.txnId == p && Over(s.txns[p].snap, q)
    && s.txns[t].snap.txnId == t && Over(s.txns[t].snap, p)
    && |s.vs| == a + 1 && s.vs[a] == Version(q, NO_TXN, None, 0)
    && forall i :: i in s.locks ==> i < a
  }

  function FirstWrites(s: State, p: TxnId, a: nat): State
    requires p in s.txns && a < |s.vs|
  {
    Committing(Updated(s, p, a, 0), p)
  }

  lemma First(s: State, t: TxnId, p: TxnId, q: TxnId, a: nat)
    requires Poised(s, t, p, q, a)
    ensures var s' := FirstWrites(s, p, a);
      && Reaches(s, s') && Ready(s', t) && s'.txns[t] == s.txns[t] && s'.next == s.next && p in s'.txns && q !in s'.txns
      && s'.vs == s.vs[a := Version(q, p, None, 0)] + [Version(p, NO_TXN, Some(a), 0)]
      && s'.commits == s.commits[p := Committed] && a + 1 !in s'.locks
  {
    hide Reaches;
    Updates(s, p, a, 0);
    Commits(Updated(s, p, a, 0), p);
    ReachesJoin(s, Updated(s, p, a, 0), FirstWrites(s, p, a));
  }

  lemma Second(s: State, t: TxnId, p: TxnId, q: TxnId, a: nat) returns (s': State)
    requires Poised(s, t, p, q, a)
    ensures Reaches(s, s') && s'.next == s.next && p in s'.txns && t !in s'.txns && q !in s'.txns
    ensures s'.commits == s.commits[p := Committed][t := Committed]
    ensures |s'.vs| == a + 3 && s'.vs[a] == Version(q, p, None, 0)
            && s'.vs[a + 1] == Version(p, t, Some(a), 0) && s'.vs[a + 2] == Version(t, NO_TXN, Some(a + 1), 0)
  {
    First(s, t, p, q, a);
    var s1 := FirstWrites(s, p, a);
    hide Reaches, FirstWrites;
    Updates(s1, t, a + 1, 0);
    var s2 := Updated(s1, t, a + 1, 0);
    CommitsAndLeaves(s2, t);
    s' := Gone(s2, t);
    ReachesJoin(s, s1, s2);
    ReachesJoin(s, s2, s');
  }

  lemma Third(s: State, t: TxnId, p: TxnId, q: TxnId, a: nat) returns (s': State)
    requires Poised(s, t, p, q, a)
    ensures Reaches(s, s') && ShowsTwo(s')
  {
    hide Reaches;
    var s1 := Second(s, t, p, q, a);
    Begins(s1, ReadOnly);
    s' := Begun(s1, ReadOnly);
    ReachesJoin(s, s1, s');
    var v := s1.next;
    hide Begun;
    assert Sees(s', v, a) && Sees(s', v, a + 2);
    assert Root(s'.vs, a) == a && Root(s'.vs, a + 1) == a && Root(s'.vs, a + 2) == a;
  }

  /**
   * Registering `t` while `p` is waiting can end with one row shown twice. `p` starts late, replaces a row
   * and commits; `t` counts `p` as over, replaces that version and is gone before `p` leaves the active
   * set; the next reader counts `t` as over and `p` as running, and sees the row before and after both.
   */
  lemma OverlapShowsTwo(s: State, t: TxnId, p: TxnId) returns (s': State)
    requires Inv(s) && Enabled(s, Register(t, ReadWrite)) && p in s.pending && p != t
    ensures Reaches(Do(s, Register(t, ReadWrite)), s') && ShowsTwo(s')
  {
    assert PendingOk(s);
    assert s.next !in s.txns by { assert s.next in s.txns ==> TxnOk(s, s.next); }
    hide Reaches, ShowsTwo, Inv;
    var s0 := Do(s, Register(t, ReadWrite));
    var s1, a := FreeRow(s0);
    var s2 := Do(s1, Register(p, ReadWrite));
    ReachesStep(s0, s1, Register(p, ReadWrite));
    s' := Third(s2, t, p, s0.next, a);
    ReachesJoin(s0, s2, s');
  }

  /** The smallest such run: two ids are allocated before the second is registered. */
  lemma TwoVersionsSeen()
    ensures exists steps, s :: Run(steps, s) && ShowsTwo(s)
  {
    var m := Do(Do(Init, Alloc), Alloc);
    ReachesSelf(Init);
    ReachesStep(Init, Init, Alloc);
    ReachesStep(Init, Do(Init, Alloc), Alloc);
    ReachesStep(Init, m, Register(3, ReadWrite));
    assert Inv(m) by {
      assert Inv(Init);
      StepKeepsInv(Init, Alloc);
      StepKeepsInv(Do(Init, Alloc), Alloc);
    }
    var s := OverlapShowsTwo(m, 3, 2);
    ReachesJoin(Init, Do(m, Register(3, ReadWrite)), s);
    var steps :| Exec(Init, steps, s);
    assert Run(steps, s);
  }
}
