/** When a transaction is refused, and how a blocked one comes to have its lock. */
module LockProgress {
  import opened Options
  import opened Visibility
  import opened RecordHeader
  import opened WaitGraph
  import opened LockManager

  // ----- A refusal is a cycle -----

  /** A transaction is refused if and only if the waits recorded before lead from the holder back to it. */
  lemma RefusedIff(s: State, t: TxnId)
    requires Inv(s) && PcOf(s, t).Blocked?
    ensures var s', pc := Do(s, SetWait(t)), PcOf(s, t);
      && (PcOf(s', t) == Refused(pc.rid) || PcOf(s', t) == Dozing(pc.rid))
      && (PcOf(s', t).Refused? <==> exists n: nat :: Walk(s.waits, pc.other, n) == Some(t))
  {
    hide Inv;
    var other := PcOf(s, t).other;
    var w' := s.waits[t := other];
    ReachesIffWalk(w', other, t);
    if n: nat :| Walk(w', other, n) == Some(t) {
      var k := FirstArrival(s.waits, w', t, other, n);
    } else if n: nat :| Walk(s.waits, other, n) == Some(t) {
      var k := FirstArrival(s.waits, w', t, other, n);
    }
  }

  /** The record a transaction inside `acquire` is after is held by the one it is recorded to wait on. */
  ghost predicate RealWait(s: State, t: TxnId) {
    && t in s.waits && MayWait(PcOf(s, t))
    && HolderOf(s, PcOf(s, t).rid) == Some(s.waits[t])
  }

  /** A wait is real, or it is on a transaction that has begun to release its locks. */
  ghost predicate EdgeOk(s: State, ended: set<TxnId>, t: TxnId) {
    t in s.waits ==> RealWait(s, t) || s.waits[t] in ended
  }

  ghost predicate EndedOk(s: State, ended: set<TxnId>, t: TxnId) {
    var pc := PcOf(s, t);
    (pc.Releasing? ==> t in ended) && (t in ended ==> pc.Idle? || pc.Releasing?)
  }

  ghost predicate EdgesOk(s: State, ended: set<TxnId>) {
    (forall t :: EdgeOk(s, ended, t)) && (forall t :: EndedOk(s, ended, t))
  }

  function EndedBy(ended: set<TxnId>, step: Step): set<TxnId> {
    if step.BeginRelease? then ended + {step.t} else ended
  }

  /** A transaction releases its locks when it ends, and asks for none after. */
  ghost predicate OneLife(ended: set<TxnId>, steps: seq<Step>) {
    && (forall j :: 0 <= j < |steps| && steps[j].Call? ==> steps[j].t !in ended)
    && (forall i, j :: 0 <= i < j < |steps| && steps[i].BeginRelease? && steps[j].Call? ==> steps[i].t != steps[j].t)
  }

  lemma EdgeStep(s: State, ended: set<TxnId>, step: Step, u: TxnId)
    requires Inv(s) && EdgesOk(s, ended) && Enabled(s, step)
    ensures EdgeOk(Do(s, step), EndedBy(ended, step), u)
  {
    hide LatchFree, Reaches, Acyclic, HolderOk, LatchOk, ListsOk;
    assert WaitOk(s, u) && EdgeOk(s, ended, u) && EndedOk(s, ended, step.t);
    if u != step.t {
      OthersKept(s, step, u);
      if u in s.waits {
        HolderChange(s, step, PcOf(s, u).rid);
      }
      hide Do, Enabled, Inv, EdgesOk;
    } else {
      hide Inv, EdgesOk;
    }
  }

  lemma EndedStep(s: State, ended: set<TxnId>, step: Step, u: TxnId)
    requires EdgesOk(s, ended) && Enabled(s, step) && (step.Call? ==> step.t !in ended)
    ensures EndedOk(Do(s, step), EndedBy(ended, step), u)
  {
    hide LatchFree, Reaches;
    assert EndedOk(s, ended, u);
    if u != step.t {
      OthersKept(s, step, u);
      hide Do, Enabled, EdgesOk;
    } else {
      hide EdgesOk;
    }
  }

  lemma {:induction false} RunEdges(s: State, ended: set<TxnId>, steps: seq<Step>, s': State)
    returns (ended': set<TxnId>)
    requires Inv(s) && EdgesOk(s, ended) && OneLife(ended, steps) && Run(s, steps, s')
    ensures Inv(s') && EdgesOk(s', ended')
    decreases |steps|
  {
    if steps == [] {
      ended' := ended;
    } else {
      var step := steps[0];
      var next := EndedBy(ended, step);
      StepKeepsInv(s, step);
      forall u ensures EdgeOk(Do(s, step), next, u) && EndedOk(Do(s, step), next, u) {
        EdgeStep(s, ended, step, u);
        EndedStep(s, ended, step, u);
      }
      forall j | 0 <= j < |steps[1..]| && steps[1..][j].Call? ensures steps[1..][j].t !in next {
        assert steps[1..][j] == steps[j + 1];
      }
      hide Inv, Do, Enabled, EdgeOk, EndedOk;
      ended' := RunEdges(Do(s, step), next, steps[1..], s');
    }
  }

  /**
   * No false deadlock: whenever a transaction is refused, it stands on a ring of transactions in `acquire`, each
   * after a record that the next one holds.
   */
  lemma RefusalIsDeadlock(steps: seq<Step>, s: State, t: TxnId) returns (n: nat)
    requires OneLife({}, steps) && Run(Start, steps, s) && PcOf(s, t).Blocked?
    requires PcOf(Do(s, SetWait(t)), t).Refused?
    ensures var s' := Do(s, SetWait(t));
      && n > 0 && Walk(s'.waits, t, n) == Some(t)
      && forall i: nat :: i < n ==> Walk(s'.waits, t, i).Some? && RealWait(s', Walk(s'.waits, t, i).value)
  {
    StartInv();
    assert EdgesOk(Start, {});
    var ended := RunEdges(Start, {}, steps, s);
    hide Run, OneLife, EdgesOk, Inv;
    n := RefusalRing(s, ended, t);
  }

  lemma RefusalRing(s: State, ended: set<TxnId>, t: TxnId) returns (n: nat)
    requires Inv(s) && EdgesOk(s, ended) && PcOf(s, t).Blocked? && PcOf(Do(s, SetWait(t)), t).Refused?
    ensures var s' := Do(s, SetWait(t));
      && n > 0 && Walk(s'.waits, t, n) == Some(t)
      && forall i: nat :: i < n ==> Walk(s'.waits, t, i).Some? && RealWait(s', Walk(s'.waits, t, i).value)
  {
    var s', step, other := Do(s, SetWait(t)), SetWait(t), PcOf(s, t).other;
    forall u ensures EdgeOk(s', ended, u) && EndedOk(s', ended, u) {
      EdgeStep(s, ended, step, u);
      EndedStep(s, ended, step, u);
    }
    StepKeepsInv(s, step);
    assert s'.waits == s.waits[t := other];
    ReachesIffWalk(s'.waits, other, t);
    hide Do, Enabled, Inv, EdgeOk, EndedOk, RealWait, Reaches;
    var m: nat :| Walk(s'.waits, other, m) == Some(t);
    assert Walk(s'.waits, t, 1) == Some(other) by { assert Walk(s'.waits, t, 0) == Some(t); }
    WalkAdd(s'.waits, t, 1, m);
    n := m + 1;
    RingIsReal(s', ended, t, n);
  }

  lemma RingIsReal(s: State, ended: set<TxnId>, t: TxnId, n: nat)
    requires Inv(s) && EdgesOk(s, ended) && n > 0 && Walk(s.waits, t, n) == Some(t)
    ensures forall i: nat :: i < n ==> Walk(s.waits, t, i).Some? && RealWait(s, Walk(s.waits, t, i).value)
  {
    forall i: nat | i < n ensures Walk(s.waits, t, i).Some? && RealWait(s, Walk(s.waits, t, i).value) {
      OnRing(s.waits, t, i, n);
      var u := Walk(s.waits, t, i).value;
      var v := s.waits[u];
      if i + 1 < n {
        OnRing(s.waits, t, i + 1, n);
      } else {
        OnRing(s.waits, t, 0, n);
      }
      assert v in s.waits && EdgeOk(s, ended, u) && EndedOk(s, ended, v) && WaitOk(s, v);
      hide Inv, EdgesOk;
    }
  }

  /** Before its end every walk goes on. */
  lemma OnRing(w: Waits, t: TxnId, i: nat, n: nat)
    requires i < n && Walk(w, t, n).Some?
    ensures Walk(w, t, i).Some? && Walk(w, t, i).value in w && Walk(w, t, i + 1) == Some(w[Walk(w, t, i).value])
    decreases n - i
  {
    if i + 1 < n { OnRing(w, t, i + 1, n); }
  }

  // ----- Ids used again -----

  lemma {:induction false} RunStep(s: State, steps: seq<Step>, mid: State, step: Step)
    requires Run(s, steps, mid) && Enabled(mid, step)
    ensures Run(s, steps + [step], Do(mid, step))
    decreases |steps|
  {
    if steps == [] {
      assert [step][1..] == [] && [] + [step] == [step];
    } else {
      RunStep(Do(s, steps[0]), steps[1..], mid, step);
      hide Do, Enabled;
      assert (steps + [step])[1..] == steps[1..] + [step];
    }
  }

  /** Two transactions and two records, everybody else idle. */
  datatype Scene = Scene(pt: Pc, pu: Pc, ha: Option<TxnId>, hb: Option<TxnId>, lt: seq<RecordId>, waits: Waits)

  ghost predicate Shows(s: State, t: TxnId, u: TxnId, a: RecordId, b: RecordId, scene: Scene) {
    && PcOf(s, t) == scene.pt && PcOf(s, u) == scene.pu
    && HolderOf(s, a) == scene.ha && HolderOf(s, b) == scene.hb && HeldBy(s, t) == scene.lt && s.waits == scene.waits
  }

  ghost predicate OthersIdle(s: State, t: TxnId, u: TxnId) {
    forall x :: x != t && x != u ==> PcOf(s, x).Idle?
  }

  /** A run from the start comes to a state that shows the scene. */
  ghost predicate Came(steps: seq<Step>, s: State, t: TxnId, u: TxnId, a: RecordId, b: RecordId, scene: Scene) {
    Run(Start, steps, s) && OthersIdle(s, t, u) && Shows(s, t, u, a, b, scene) && t != u && a != b
  }

  lemma Play(steps: seq<Step>, s: State, t: TxnId, u: TxnId, a: RecordId, b: RecordId, was: Scene, step: Step,
             now: Scene) returns (steps': seq<Step>, s': State)
    requires Came(steps, s, t, u, a, b, was) && Enabled(s, step) && Shows(Do(s, step), t, u, a, b, now)
    requires step.t == t || step.t == u
    ensures s' == Do(s, step) && Came(steps', s', t, u, a, b, now)
  {
    hide Reaches, LatchFree, Notify;
    RunStep(Start, steps, s, step);
    steps', s' := steps + [step], Do(s, step);
    forall x | x != t && x != u ensures PcOf(s', x).Idle? {
      OthersKept(s, step, x);
    }
  }

  lemma MakesItselfHolder(r0: seq<Step>, s0: State, t: TxnId, u: TxnId, a: RecordId, b: RecordId, hb: Option<TxnId>)
    returns (r: seq<Step>, s: State)
    requires Came(r0, s0, t, u, a, b, Scene(Idle, Idle, None, hb, [], map[]))
    ensures Came(r, s, t, u, a, b, Scene(Took(a), Idle, Some(t), hb, [], map[])) && HeldBy(s, u) == HeldBy(s0, u)
  {
    hide Reaches, Run, Notify;
    var c0 := Scene(Idle, Idle, None, hb, [], map[]);
    var c1, c2 := c0.(pt := AtTop(a)), c0.(pt := Took(a), ha := Some(t));
    r, s := Play(r0, s0, t, u, a, b, c0, Call(t, a), c1);
    r, s := Play(r, s, t, u, a, b, c1, Decide(t), c2);
  }

  /** A transaction takes a free record; the other one stays idle. */
  lemma TakesRecord(r0: seq<Step>, s0: State, t: TxnId, u: TxnId, a: RecordId, b: RecordId, hb: Option<TxnId>)
    returns (r: seq<Step>, s: State)
    requires Came(r0, s0, t, u, a, b, Scene(Idle, Idle, None, hb, [], map[]))
    ensures Came(r, s, t, u, a, b, Scene(Idle, Idle, Some(t), hb, [a], map[])) && HeldBy(s, u) == HeldBy(s0, u)
  {
    hide Reaches, Run, Notify, LatchFree, OthersIdle;
    var c2 := Scene(Took(a), Idle, Some(t), hb, [], map[]);
    var c3, c4 := c2.(pt := Noting(a)), c2.(pt := Idle, lt := [a]);
    r, s := MakesItselfHolder(r0, s0, t, u, a, b, hb);
    assert s.waits - {t} == map[];
    r, s := Play(r, s, t, u, a, b, c2, ClearTook(t), c3);
    r, s := Play(r, s, t, u, a, b, c3, Note(t), c4);
  }

  /** `u` falls asleep on the record of `t`. */
  lemma FallsAsleep(r0: seq<Step>, s0: State, t: TxnId, u: TxnId, a: RecordId, b: RecordId)
    returns (r: seq<Step>, s: State)
    requires Came(r0, s0, t, u, a, b, Scene(Idle, Idle, Some(t), Some(u), [a], map[]))
    ensures Came(r, s, t, u, a, b, Scene(Idle, Asleep(a), Some(t), Some(u), [a], map[u := t]))
  {
    hide Reaches, Run, Notify, Inv;
    var c0 := Scene(Idle, Idle, Some(t), Some(u), [a], map[]);
    var c1, c2 := c0.(pu := AtTop(a)), c0.(pu := Blocked(a, t));
    var c3, c4 := c0.(pu := Dozing(a), waits := map[u := t]), c0.(pu := Asleep(a), waits := map[u := t]);
    r, s := Play(r0, s0, t, u, a, b, c0, Call(u, a), c1);
    r, s := Play(r, s, t, u, a, b, c1, Decide(u), c2);
    StartInv();
    RunKeepsInv(Start, r, s);
    NotRefused(s, u, t);
    assert s.waits[u := t] == map[u := t];
    r, s := Play(r, s, t, u, a, b, c2, SetWait(u), c3);
    r, s := Play(r, s, t, u, a, b, c3, Sleep(u), c4);
  }

  /** `t` releases its record, which wakes `u`. */
  lemma Wakes(r0: seq<Step>, s0: State, t: TxnId, u: TxnId, a: RecordId, b: RecordId)
    returns (r: seq<Step>, s: State)
    requires Came(r0, s0, t, u, a, b, Scene(Idle, Asleep(a), Some(t), Some(u), [a], map[u := t]))
    ensures Came(r, s, t, u, a, b, Scene(Releasing([]), Woken(a), None, Some(u), [], map[u := t]))
  {
    hide Reaches, Run;
    var c0 := Scene(Idle, Asleep(a), Some(t), Some(u), [a], map[u := t]);
    var c1, c2 := c0.(pt := Releasing([a]), lt := []), Scene(Releasing([]), Woken(a), None, Some(u), [], map[u := t]);
    r, s := Play(r0, s0, t, u, a, b, c0, BeginRelease(t), c1);
    assert [a][1..] == [];
    r, s := Play(r, s, t, u, a, b, c1, ReleaseOne(t), c2);
  }

  /** `t` asks for the record of `u` before that has moved. */
  lemma ComesBack(r0: seq<Step>, s0: State, t: TxnId, u: TxnId, a: RecordId, b: RecordId)
    returns (r: seq<Step>, s: State)
    requires Came(r0, s0, t, u, a, b, Scene(Releasing([]), Woken(a), None, Some(u), [], map[u := t]))
    ensures Came(r, s, t, u, a, b, Scene(Blocked(b, u), Woken(a), None, Some(u), [], map[u := t]))
  {
    hide Reaches, Run, Notify;
    var c0 := Scene(Releasing([]), Woken(a), None, Some(u), [], map[u := t]);
    var c1, c2, c3 := c0.(pt := Idle), c0.(pt := AtTop(b)), c0.(pt := Blocked(b, u));
    assert s0.waits - {t} == map[u := t];
    r, s := Play(r0, s0, t, u, a, b, c0, EndRelease(t), c1);
    r, s := Play(r, s, t, u, a, b, c1, Call(t, b), c2);
    r, s := Play(r, s, t, u, a, b, c2, Decide(t), c3);
  }

  lemma BothTake(t: TxnId, u: TxnId, a: RecordId, b: RecordId) returns (r: seq<Step>, s: State)
    requires t != u && a != b
    ensures Came(r, s, t, u, a, b, Scene(Idle, Idle, Some(t), Some(u), [a], map[]))
  {
    assert Came([], Start, t, u, a, b, Scene(Idle, Idle, None, None, [], map[]));
    hide Run;
    r, s := TakesRecord([], Start, t, u, a, b, None);
    assert Came(r, s, u, t, b, a, Scene(Idle, Idle, None, Some(t), [], map[]));
    r, s := TakesRecord(r, s, u, t, b, a, Some(t));
  }

  /**
   * The condition is needed: if an id asks for a lock again after its release, it can be refused for the wait of a
   * transaction that is after a record nobody holds.
   */
  lemma PhantomCycle(t: TxnId, u: TxnId, a: RecordId, b: RecordId) returns (steps: seq<Step>, s: State)
    requires t != u && a != b
    ensures Run(Start, steps, s) && PcOf(s, t) == Blocked(b, u) && PcOf(Do(s, SetWait(t)), t).Refused?
    ensures PcOf(s, u) == Woken(a) && HolderOf(s, a) == None
  {
    steps, s := BothTake(t, u, a, b);
    steps, s := FallsAsleep(steps, s, t, u, a, b);
    steps, s := Wakes(steps, s, t, u, a, b);
    steps, s := ComesBack(steps, s, t, u, a, b);
    RefusedBack(steps, s, t);
  }

  lemma RefusedBack(steps: seq<Step>, s: State, t: TxnId)
    requires Run(Start, steps, s) && PcOf(s, t).Blocked?
    requires PcOf(s, t).other in s.waits && s.waits[PcOf(s, t).other] == t
    ensures PcOf(Do(s, SetWait(t)), t).Refused?
  {
    StartInv();
    RunKeepsInv(Start, steps, s);
    RefusedIff(s, t);
    hide Run, Inv, Do, Enabled;
    var u := PcOf(s, t).other;
    assert exists n: nat :: Walk(s.waits, u, n) == Some(t) by {
      assert Walk(s.waits, u, 0) == Some(u);
      assert Walk(s.waits, u, 1) == Some(t);
    }
  }

  // ----- Progress -----

  /** Steps a thread takes by itself: no time-out and no spurious wake-up. */
  predicate Plain(step: Step) { !step.GiveUp? && !step.Wake? }

  ghost predicate Led(movers: set<TxnId>, s: State, steps: seq<Step>, s': State) {
    Run(s, steps, s') && forall i :: 0 <= i < |steps| ==> steps[i].t in movers && Plain(steps[i])
  }

  /** A run of the movers' own steps. */
  ghost predicate Leads(movers: set<TxnId>, s: State, s': State) {
    exists steps :: Led(movers, s, steps, s')
  }

  predicate HoldsLatch(pc: Pc) { pc.AtTop? || pc.Took? || pc.Blocked? || pc.Refused? || pc.Dozing? }

  /** The threads inside a latch. */
  function Latchers(s: State): set<TxnId> { set t | t in s.pc && HoldsLatch(s.pc[t]) }

  ghost predicate Ok(movers: set<TxnId>, s: State) { Inv(s) && Latchers(s) <= movers }

  lemma LeadsNone(movers: set<TxnId>, s: State)
    ensures Leads(movers, s, s)
  {
    assert Led(movers, s, [], s);
  }

  lemma LeadsFirst(movers: set<TxnId>, s: State, step: Step, s': State)
    requires Enabled(s, step) && step.t in movers && Plain(step) && Leads(movers, Do(s, step), s')
    ensures Leads(movers, s, s')
  {
    var steps :| Led(movers, Do(s, step), steps, s');
    var all := [step] + steps;
    assert all[1..] == steps;
    assert Run(s, all, s');
    assert Led(movers, s, all, s');
  }

  lemma {:induction false} LeadsOn(movers: set<TxnId>, a: State, steps: seq<Step>, b: State, c: State)
    requires Led(movers, a, steps, b) && Leads(movers, b, c)
    ensures Leads(movers, a, c)
    decreases |steps|
  {
    if steps != [] {
      var step := steps[0];
      assert step.t in movers && Plain(step);
      assert Led(movers, Do(a, step), steps[1..], b);
      hide Do, Enabled;
      LeadsOn(movers, Do(a, step), steps[1..], b, c);
      LeadsFirst(movers, a, step, c);
    }
  }

  lemma LeadsTrans(movers: set<TxnId>, a: State, b: State, c: State)
    requires Leads(movers, a, b) && Leads(movers, b, c)
    ensures Leads(movers, a, c)
  {
    var steps :| Led(movers, a, steps, b);
    LeadsOn(movers, a, steps, b, c);
  }

  lemma StepOk(movers: set<TxnId>, s: State, step: Step)
    requires Ok(movers, s) && Enabled(s, step) && step.t in movers
    ensures Ok(movers, Do(s, step))
  {
    StepKeepsInv(s, step);
    hide Inv, LatchFree, Reaches;
    forall u | u in Latchers(Do(s, step)) ensures u in movers {
      if u != step.t {
        OthersKept(s, step, u);
        hide Do;
      }
    }
  }

  /** How far a thread is from dropping its latch. */
  function Rank(pc: Pc): nat { if pc.AtTop? then 3 else if pc.Blocked? then 2 else if HoldsLatch(pc) then 1 else 0 }

  /** What a thread inside a latch does next. */
  function Next(pc: Pc, x: TxnId): Step
    requires HoldsLatch(pc)
  {
    match pc
    case AtTop(_) => Decide(x)
    case Took(_) => ClearTook(x)
    case Blocked(_, _) => SetWait(x)
    case Refused(_) => Refuse(x)
    case Dozing(_) => Sleep(x)
  }

  /** From `s` to `s'` only `x` has moved, and no lock has been given up. */
  ghost predicate Quiet(s: State, s': State, x: TxnId) {
    && (forall y :: y != x ==> PcOf(s', y) == PcOf(s, y) && HeldBy(s', y) == HeldBy(s, y))
    && (forall rid :: rid in s.holder ==> HolderOf(s', rid) == HolderOf(s, rid))
  }

  lemma NextIsQuiet(s: State, x: TxnId)
    requires HoldsLatch(PcOf(s, x))
    ensures var step := Next(PcOf(s, x), x);
      && Enabled(s, step) && Plain(step) && step.t == x && Quiet(s, Do(s, step), x)
      && Rank(PcOf(Do(s, step), x)) < Rank(PcOf(s, x))
      && (HoldsLatch(PcOf(Do(s, step), x)) ==> PcOf(Do(s, step), x).rid == PcOf(s, x).rid)
  {
    hide LatchFree, Reaches;
    var step := Next(PcOf(s, x), x);
    var s' := Do(s, step);
    forall y | y != x ensures PcOf(s', y) == PcOf(s, y) && HeldBy(s', y) == HeldBy(s, y) {
      OthersKept(s, step, y);
    }
    forall rid | rid in s.holder ensures HolderOf(s', rid) == HolderOf(s, rid) {
      HolderChange(s, step, rid);
    }
  }

  /** A thread inside a latch can leave it by its own steps alone. */
  lemma {:induction false} LeavesLatch(movers: set<TxnId>, s: State, x: TxnId) returns (s': State)
    requires Ok(movers, s) && HoldsLatch(PcOf(s, x))
    ensures Ok(movers, s') && Leads(movers, s, s') && Quiet(s, s', x) && !HoldsLatch(PcOf(s', x))
    decreases Rank(PcOf(s, x))
  {
    NextIsQuiet(s, x);
    var step := Next(PcOf(s, x), x);
    assert x in Latchers(s);
    StepOk(movers, s, step);
    hide Do, Enabled, Ok, Latchers, Next;
    var s1 := Do(s, step);
    if HoldsLatch(PcOf(s1, x)) {
      s' := LeavesLatch(movers, s1, x);
    } else {
      s' := s1;
      LeadsNone(movers, s1);
    }
    LeadsFirst(movers, s, step, s');
  }

  /** The latch of a record can always be had: whoever holds it moves on. */
  lemma FreesLatch(movers: set<TxnId>, s: State, rid: RecordId) returns (s': State, x: TxnId)
    requires Ok(movers, s)
    ensures Ok(movers, s') && Leads(movers, s, s') && LatchFree(s', rid)
    ensures Quiet(s, s', x) && (s' == s || Latched(PcOf(s, x), rid))
  {
    if LatchFree(s, rid) {
      s', x := s, NO_TXN;
      LeadsNone(movers, s);
    } else {
      x :| Latched(PcOf(s, x), rid);
      s' := LeavesLatch(movers, s, x);
      forall y ensures !Latched(PcOf(s', y), rid) {
        assert Latched(PcOf(s, y), rid) ==> y == x;
      }
    }
  }

  /** `t` sleeps on a record that `u` is about to release. */
  ghost predicate Due(s: State, t: TxnId, u: TxnId, rid: RecordId) {
    && PcOf(s, t) == Asleep(rid) && PcOf(s, u).Releasing? && rid in PcOf(s, u).todo
    && HolderOf(s, rid) == Some(u)
  }

  /** The last release wakes the sleeper, which takes the record. */
  lemma TakesIt(movers: set<TxnId>, s: State, t: TxnId, u: TxnId, rid: RecordId) returns (s': State)
    requires Ok(movers, s) && {t, u} <= movers && Due(s, t, u, rid) && PcOf(s, u).todo[0] == rid && LatchFree(s, rid)
    ensures Leads(movers, s, s') && Ok(movers, s') && Owns(s', t, rid)
  {
    var s1 := Do(s, ReleaseOne(u));
    StepOk(movers, s, ReleaseOne(u));
    OthersKept(s, ReleaseOne(u), t);
    HolderChange(s, ReleaseOne(u), rid);
    assert LatchFree(s1, rid) by {
      forall y ensures !Latched(PcOf(s1, y), rid) {
        if Latched(PcOf(s1, y), rid) { LatchStep(s, ReleaseOne(u), y, rid); }
      }
    }
    var s2 := Do(s1, Retry(t));
    StepOk(movers, s1, Retry(t));
    s' := Do(s2, Decide(t));
    StepOk(movers, s2, Decide(t));
    hide Ok, Latchers, LatchFree, Leads;
    LeadsNone(movers, s');
    LeadsFirst(movers, s2, Decide(t), s');
    LeadsFirst(movers, s1, Retry(t), s');
    LeadsFirst(movers, s, ReleaseOne(u), s');
  }

  /** Releasing one record after another comes to the one that is waited for. */
  lemma {:induction false} ReleasesDown(movers: set<TxnId>, s: State, t: TxnId, u: TxnId, rid: RecordId)
    returns (s': State)
    requires Ok(movers, s) && {t, u} <= movers && Due(s, t, u, rid)
    ensures Leads(movers, s, s') && Ok(movers, s') && Owns(s', t, rid)
    decreases |PcOf(s, u).todo|
  {
    var first := PcOf(s, u).todo[0];
    var s1, x := FreesLatch(movers, s, first);
    assert PcOf(s1, t) == PcOf(s, t) && PcOf(s1, u) == PcOf(s, u) && HolderOf(s1, rid) == HolderOf(s, rid);
    if first == rid {
      hide Ok, Leads, LatchFree;
      s' := TakesIt(movers, s1, t, u, rid);
    } else {
      var s2 := Do(s1, ReleaseOne(u));
      StepOk(movers, s1, ReleaseOne(u));
      OthersKept(s1, ReleaseOne(u), t);
      HolderChange(s1, ReleaseOne(u), rid);
      hide Ok, Leads, LatchFree;
      s' := ReleasesDown(movers, s2, t, u, rid);
      LeadsFirst(movers, s1, ReleaseOne(u), s');
    }
    LeadsTrans(movers, s, s1, s');
  }

  /**
   * A transaction blocked on an idle holder is not refused, and gets the record: a run in which the holder releases,
   * and besides the two of them only threads inside a latch move, ends with the transaction owning it.
   */
  lemma {:induction false} BlockedGetsLock(s: State, t: TxnId, u: TxnId, rid: RecordId) returns (s': State)
    requires Inv(s) && PcOf(s, u).Idle? && HolderOf(s, rid) == Some(u)
    requires PcOf(s, t) == Blocked(rid, u) || PcOf(s, t) == Dozing(rid) || PcOf(s, t) == Asleep(rid)
    ensures Leads(Latchers(s) + {t, u}, s, s') && Inv(s') && Owns(s', t, rid)
  {
    s' := GetsLock(Latchers(s) + {t, u}, s, t, u, rid);
  }

  lemma {:induction false} GetsLock(movers: set<TxnId>, s: State, t: TxnId, u: TxnId, rid: RecordId)
    returns (s': State)
    requires Ok(movers, s) && {t, u} <= movers && PcOf(s, u).Idle? && HolderOf(s, rid) == Some(u)
    requires PcOf(s, t) == Blocked(rid, u) || PcOf(s, t) == Dozing(rid) || PcOf(s, t) == Asleep(rid)
    ensures Leads(movers, s, s') && Ok(movers, s') && Owns(s', t, rid)
    decreases Rank(PcOf(s, t))
  {
    if PcOf(s, t).Asleep? {
      assert Owns(s, u, rid);
      var s1 := Do(s, BeginRelease(u));
      StepOk(movers, s, BeginRelease(u));
      OthersKept(s, BeginRelease(u), t);
      HolderChange(s, BeginRelease(u), rid);
      hide Ok, Leads, LatchFree;
      s' := ReleasesDown(movers, s1, t, u, rid);
      LeadsFirst(movers, s, BeginRelease(u), s');
    } else {
      NotRefused(s, t, u);
      NextIsQuiet(s, t);
      var step := Next(PcOf(s, t), t);
      StepOk(movers, s, step);
      var s1 := Do(s, step);
      hide Ok, Leads, LatchFree;
      s' := GetsLock(movers, s1, t, u, rid);
      LeadsFirst(movers, s, step, s');
    }
  }

  lemma NotRefused(s: State, t: TxnId, u: TxnId)
    requires Inv(s) && PcOf(s, u).Idle?
    ensures PcOf(s, t).Blocked? && PcOf(s, t).other == u ==>
      PcOf(Do(s, SetWait(t)), t) == Dozing(PcOf(s, t).rid)
  {
    if PcOf(s, t).Blocked? && PcOf(s, t).other == u {
      RefusedIff(s, t);
      assert WaitOk(s, u);
      forall n: nat ensures Walk(s.waits, u, n) != Some(t) {
        if n > 0 { NoWalk(s.waits, u, n); }
      }
    }
  }

  /** So does a transaction that has yet to call `acquire`. */
  lemma CallerGetsLock(s: State, t: TxnId, u: TxnId, rid: RecordId) returns (s': State)
    requires Inv(s) && t != u && PcOf(s, t).Idle? && PcOf(s, u).Idle? && HolderOf(s, rid) == Some(u)
    ensures Leads(Latchers(s) + {t, u}, s, s') && Inv(s') && Owns(s', t, rid)
  {
    var movers := Latchers(s) + {t, u};
    var s1, x := FreesLatch(movers, s, rid);
    assert PcOf(s1, t).Idle? && PcOf(s1, u).Idle? && HolderOf(s1, rid) == Some(u);
    var s2 := Do(s1, Call(t, rid));
    StepOk(movers, s1, Call(t, rid));
    var s3 := Do(s2, Decide(t));
    StepOk(movers, s2, Decide(t));
    hide Leads, LatchFree;
    s' := GetsLock(movers, s3, t, u, rid);
    LeadsFirst(movers, s2, Decide(t), s');
    LeadsFirst(movers, s1, Call(t, rid), s');
    LeadsTrans(movers, s, s1, s');
  }
}
