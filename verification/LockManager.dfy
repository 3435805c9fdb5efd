/**
 * Write locks under every interleaving of `acquire` and `release_all`: who holds what, who waits on
 * whom, and why no group of transactions is ever left waiting on itself. Each record has its own
 * latch here, the finest sharding there is; any coarser one allows fewer interleavings.
 */
module LockManager {
  import opened Options
  import opened Visibility
  import opened RecordHeader
  import opened WaitGraph

  /** Where a transaction's thread is inside the lock manager. */
  datatype Pc =
    | Idle
    | AtTop(rid: RecordId)                   // about to look at the holder
    | Took(rid: RecordId)                    // made itself holder, edge not yet cleared
    | Noting(rid: RecordId)                  // edge cleared, latch dropped, not yet on the held list
    | Blocked(rid: RecordId, other: TxnId)   // saw another holder
    | Refused(rid: RecordId)                 // its edge would complete a cycle
    | Dozing(rid: RecordId)                  // edge recorded, still holding the latch
    | Asleep(rid: RecordId)                  // waiting on the condition variable
    | Woken(rid: RecordId)                   // notified, latch not yet retaken
    | Releasing(todo: seq<RecordId>)

  datatype State = State(
    holder: map<RecordId, TxnId>, held: map<TxnId, seq<RecordId>>, waits: Waits, pc: map<TxnId, Pc>)

  const Start: State := State(map[], map[], map[], map[])

  function PcOf(s: State, t: TxnId): Pc { if t in s.pc then s.pc[t] else Idle }

  function HeldBy(s: State, t: TxnId): seq<RecordId> { if t in s.held then s.held[t] else [] }

  /** The record whose latch a thread at this point holds. */
  predicate Latched(pc: Pc, rid: RecordId) {
    (pc.AtTop? || pc.Took? || pc.Blocked? || pc.Refused? || pc.Dozing?) && pc.rid == rid
  }

  ghost predicate LatchFree(s: State, rid: RecordId) {
    forall t :: !Latched(PcOf(s, t), rid)
  }

  datatype Step =
    | Call(t: TxnId, rid: RecordId)
    | Decide(t: TxnId)
    | ClearTook(t: TxnId)
    | Note(t: TxnId)
    | SetWait(t: TxnId)
    | Refuse(t: TxnId)
    | Sleep(t: TxnId)
    | Wake(t: TxnId)
    | Retry(t: TxnId)
    | GiveUp(t: TxnId)
    | BeginRelease(t: TxnId)
    | ReleaseOne(t: TxnId)
    | EndRelease(t: TxnId)

  ghost predicate Enabled(s: State, step: Step) {
    var pc := PcOf(s, step.t);
    match step
    case Call(_, rid) => pc.Idle? && LatchFree(s, rid)
    case Decide(_) => pc.AtTop?
    case ClearTook(_) => pc.Took?
    case Note(_) => pc.Noting?
    case SetWait(_) => pc.Blocked?
    case Refuse(_) => pc.Refused?
    case Sleep(_) => pc.Dozing?
    case Wake(_) => pc.Asleep?
    case Retry(_) => pc.Woken? && LatchFree(s, pc.rid)
    case GiveUp(_) => pc.Dozing? || ((pc.Asleep? || pc.Woken?) && LatchFree(s, pc.rid))
    case BeginRelease(_) => pc.Idle?
    case ReleaseOne(_) => pc.Releasing? && pc.todo != [] && LatchFree(s, pc.todo[0])
    case EndRelease(_) => pc.Releasing? && pc.todo == []
  }

  function At(s: State, t: TxnId, pc: Pc): State { s.(pc := s.pc[t := pc]) }

  function Unwait(s: State, t: TxnId): State { s.(waits := s.waits - {t}) }

  /** `notify_all` on the record's condition variable. */
  function Notify(s: State, rid: RecordId): State {
    s.(pc := map t | t in s.pc :: if s.pc[t] == Asleep(rid) then Woken(rid) else s.pc[t])
  }

  ghost function Do(s: State, step: Step): State
    requires Enabled(s, step)
  {
    var t, pc := step.t, PcOf(s, step.t);
    match step
    case Call(_, rid) => At(s, t, AtTop(rid))
    case Decide(_) =>
      if pc.rid !in s.holder then At(s.(holder := s.holder[pc.rid := t]), t, Took(pc.rid))
      else if s.holder[pc.rid] == t then At(s, t, Idle)
      else At(s, t, Blocked(pc.rid, s.holder[pc.rid]))
    case ClearTook(_) => At(Unwait(s, t), t, Noting(pc.rid))
    case Note(_) => At(s.(held := s.held[t := HeldBy(s, t) + [pc.rid]]), t, Idle)
    case SetWait(_) =>
      var s' := s.(waits := s.waits[t := pc.other]);
      At(s', t, if Reaches(AsEdges(s'.waits), pc.other, t) then Refused(pc.rid) else Dozing(pc.rid))
    case Refuse(_) => At(Unwait(s, t), t, Idle)
    case Sleep(_) => At(s, t, Asleep(pc.rid))
    case Wake(_) => At(s, t, Woken(pc.rid))
    case Retry(_) => At(s, t, AtTop(pc.rid))
    case GiveUp(_) => At(Unwait(s, t), t, Idle)
    case BeginRelease(_) => At(s.(held := s.held - {t}), t, Releasing(HeldBy(s, t)))
    case ReleaseOne(_) =>
      var rid := pc.todo[0];
      var freed := rid in s.holder && s.holder[rid] == t;
      At(if freed then Notify(s.(holder := s.holder - {rid}), rid) else s, t, Releasing(pc.todo[1..]))
    case EndRelease(_) => At(Unwait(s, t), t, Idle)
  }

  // ----- The invariant -----

  /** The locks a transaction has and has not yet given back. */
  predicate Owns(s: State, t: TxnId, rid: RecordId) {
    || rid in HeldBy(s, t)
    || PcOf(s, t) == Took(rid) || PcOf(s, t) == Noting(rid)
    || (PcOf(s, t).Releasing? && rid in PcOf(s, t).todo)
  }

  ghost predicate NoRepeats(s: seq<RecordId>) {
    forall i, j :: 0 <= i < j < |s| ==> s[i] != s[j]
  }

  /** A record has one holder at most, and its holder is the one transaction that has it to release. */
  ghost predicate HolderOk(s: State) {
    forall t, rid :: Owns(s, t, rid) <==> rid in s.holder && s.holder[rid] == t
  }

  ghost predicate ListsOk(s: State, t: TxnId) {
    var pc := PcOf(s, t);
    && NoRepeats(HeldBy(s, t))
    && (pc.Took? || pc.Noting? ==> pc.rid !in HeldBy(s, t))
    && (pc.Releasing? ==> HeldBy(s, t) == [] && NoRepeats(pc.todo))
  }

  ghost predicate LatchOk(s: State) {
    forall t, u, rid :: Latched(PcOf(s, t), rid) && Latched(PcOf(s, u), rid) ==> t == u
  }

  /** A recorded wait belongs to a transaction still inside `acquire`. */
  predicate MayWait(pc: Pc) {
    pc.AtTop? || pc.Took? || pc.Blocked? || pc.Refused? || pc.Dozing? || pc.Asleep? || pc.Woken?
  }

  /** A transaction that sleeps without a pending wake-up waits on the record's real holder. */
  ghost predicate WaitOk(s: State, t: TxnId) {
    var pc := PcOf(s, t);
    && (t in s.waits ==> MayWait(pc) && (!pc.Took? ==> !(pc.rid in s.holder && s.holder[pc.rid] == t)))
    && (pc.Blocked? ==> pc.rid in s.holder && s.holder[pc.rid] == pc.other != t)
    && (pc.Dozing? || pc.Asleep? ==>
          t in s.waits && pc.rid in s.holder && s.waits[t] == s.holder[pc.rid] && s.holder[pc.rid] != t)
  }

  /** The recorded waits, except those about to be withdrawn by a refused transaction. */
  function Standing(s: State): Waits {
    map t | t in s.waits && !PcOf(s, t).Refused? :: s.waits[t]
  }

  ghost predicate Inv(s: State) {
    && HolderOk(s) && LatchOk(s) && Acyclic(Standing(s))
    && (forall t :: ListsOk(s, t)) && (forall t :: WaitOk(s, t))
  }

  // ----- Runs -----

  ghost predicate Run(s: State, steps: seq<Step>, s': State)
    decreases |steps|
  {
    if steps == [] then s' == s else Enabled(s, steps[0]) && Run(Do(s, steps[0]), steps[1..], s')
  }

  lemma StartInv()
    ensures Inv(Start)
  {
    forall t: TxnId, n: nat | n > 0 ensures Walk(Standing(Start), t, n) != Some(t) {
      assert Walk(Standing(Start), t, n).None? by { EmptyWalk(t, n); }
    }
  }

  lemma {:induction false} EmptyWalk(t: TxnId, n: nat)
    requires n > 0
    ensures Walk(Standing(Start), t, n).None?
  {
    if n > 1 { EmptyWalk(t, n - 1); }
  }

  // ----- What one step changes -----

  predicate Takes(s: State, step: Step, rid: RecordId) {
    step.Decide? && PcOf(s, step.t) == AtTop(rid) && rid !in s.holder
  }

  predicate Frees(s: State, step: Step, rid: RecordId) {
    step.ReleaseOne? && PcOf(s, step.t).Releasing? && PcOf(s, step.t).todo != [] && PcOf(s, step.t).todo[0] == rid
    && rid in s.holder && s.holder[rid] == step.t
  }

  function HolderOf(s: State, rid: RecordId): Option<TxnId> {
    if rid in s.holder then Some(s.holder[rid]) else None
  }

  lemma HolderChange(s: State, step: Step, rid: RecordId)
    requires Enabled(s, step)
    ensures HolderOf(Do(s, step), rid) ==
      if Takes(s, step, rid) then Some(step.t) else if Frees(s, step, rid) then None else HolderOf(s, rid)
  {
    hide Reaches, LatchFree;
  }

  /** Other transactions are left alone, but for sleepers woken by a release. */
  lemma OthersKept(s: State, step: Step, u: TxnId)
    requires Enabled(s, step) && u != step.t
    ensures var s' := Do(s, step);
      && HeldBy(s', u) == HeldBy(s, u)
      && (u in s'.waits <==> u in s.waits) && (u in s.waits ==> s'.waits[u] == s.waits[u])
      && PcOf(s', u) ==
           if PcOf(s, u).Asleep? && Frees(s, step, PcOf(s, u).rid) then Woken(PcOf(s, u).rid) else PcOf(s, u)
  {
    hide Reaches, LatchFree;
  }

  lemma KeepsHolder(s: State, step: Step, u: TxnId, rid: RecordId)
    requires Enabled(s, step) && ListsOk(s, step.t) && HolderOk(s)
    ensures Owns(Do(s, step), u, rid) <==> HolderOf(Do(s, step), rid) == Some(u)
  {
    HolderChange(s, step, rid);
    assert Owns(s, u, rid) <==> HolderOf(s, rid) == Some(u);
    assert Owns(s, step.t, rid) <==> HolderOf(s, rid) == Some(step.t);
    if u != step.t {
      OthersKept(s, step, u);
      hide Do, Enabled, HolderOk, HolderOf;
    } else {
      OwnsStep(s, step, rid);
      hide Do, Enabled, HolderOk, HolderOf;
    }
  }

  /** A transaction owns one more record when it takes it, and one fewer when it frees it. */
  lemma OwnsStep(s: State, step: Step, rid: RecordId)
    requires Enabled(s, step) && ListsOk(s, step.t)
    requires Owns(s, step.t, rid) <==> HolderOf(s, rid) == Some(step.t)
    ensures Owns(Do(s, step), step.t, rid) <==> Takes(s, step, rid) || (Owns(s, step.t, rid) && !Frees(s, step, rid))
  {
    hide Reaches, LatchFree;
    var pc := PcOf(s, step.t);
    if step.ReleaseOne? {
      assert rid in pc.todo <==> rid == pc.todo[0] || rid in pc.todo[1..];
    }
  }

  lemma KeepsLists(s: State, step: Step, u: TxnId)
    requires Inv(s) && Enabled(s, step)
    ensures ListsOk(Do(s, step), u)
  {
    hide Acyclic, WaitOk, LatchFree, Standing, Reaches, LatchOk;
    assert ListsOk(s, u) && ListsOk(s, step.t);
    var pc := PcOf(s, step.t);
    if step.Decide? {
      assert Owns(s, step.t, pc.rid) <==> pc.rid in s.holder && s.holder[pc.rid] == step.t;
    }
  }

  lemma LatchStep(s: State, step: Step, u: TxnId, rid: RecordId)
    requires Enabled(s, step) && Latched(PcOf(Do(s, step), u), rid)
    ensures Latched(PcOf(s, u), rid) || (u == step.t && LatchFree(s, rid))
  {
    hide Reaches, LatchFree;
  }

  lemma KeepsLatch(s: State, step: Step)
    requires LatchOk(s) && Enabled(s, step)
    ensures LatchOk(Do(s, step))
  {
    var s' := Do(s, step);
    forall a, b, rid | Latched(PcOf(s', a), rid) && Latched(PcOf(s', b), rid) ensures a == b {
      LatchStep(s, step, a, rid);
      LatchStep(s, step, b, rid);
    }
    hide Do;
  }

  lemma KeepsWait(s: State, step: Step, u: TxnId)
    requires Inv(s) && Enabled(s, step)
    ensures WaitOk(Do(s, step), u)
  {
    assert WaitOk(s, u);
    if u == step.t {
      OwnWait(s, step);
    } else {
      OthersKept(s, step, u);
      var pc := PcOf(s, u);
      if MayWait(pc) {
        HolderChange(s, step, pc.rid);
        assert Frees(s, step, pc.rid) ==> !Latched(pc, pc.rid);
      }
      hide Do, Enabled, Inv, Owns;
    }
  }

  lemma OwnWait(s: State, step: Step)
    requires Enabled(s, step) && WaitOk(s, step.t)
    ensures WaitOk(Do(s, step), step.t)
  {
    hide Reaches, LatchFree;
  }

  // ----- The graph stays acyclic -----

  lemma StandingSub(s: State, s': State)
    requires Acyclic(Standing(s))
    requires forall t :: t in Standing(s') ==> t in Standing(s) && Standing(s')[t] == Standing(s)[t]
    ensures Acyclic(Standing(s'))
  {
    AcyclicSub(Standing(s), Standing(s'));
  }

  lemma KeepsAcyclic(s: State, step: Step)
    requires Inv(s) && Enabled(s, step)
    ensures Acyclic(Standing(Do(s, step)))
  {
    var s', t := Do(s, step), step.t;
    if step.SetWait? && PcOf(s', t).Dozing? {
      NewWait(s, t);
    } else {
      forall u | u in Standing(s') ensures u in Standing(s) && Standing(s')[u] == Standing(s)[u] {
        if u != t {
          OthersKept(s, step, u);
        } else {
          assert WaitOk(s, t);
        }
      }
      StandingSub(s, s');
    }
  }

  /** A wait is only left standing if the other holder does not already lead back here. */
  lemma NewWait(s: State, t: TxnId)
    requires Acyclic(Standing(s)) && PcOf(s, t).Blocked?
    requires !Reaches(AsEdges(s.waits[t := PcOf(s, t).other]), PcOf(s, t).other, t)
    ensures Acyclic(Standing(Do(s, SetWait(t))))
  {
    var h, s' := PcOf(s, t).other, Do(s, SetWait(t));
    var w := Standing(s) - {t};
    AcyclicSub(Standing(s), w);
    if Reaches(AsEdges(w), h, t) {
      MorePaths(w, s'.waits, h, t);
      assert false;
    }
    AcyclicAdd(w, t, h);
    assert Standing(s') == w[t := h];
  }

  lemma MorePaths(w: Waits, w': Waits, a: TxnId, b: TxnId)
    requires Reaches(AsEdges(w), a, b) && forall t :: t in w ==> t in w' && w'[t] == w[t]
    ensures Reaches(AsEdges(w'), a, b)
  {
    var p :| IsPath(AsEdges(w), p) && p[0] == a && p[|p| - 1] == b;
    assert IsPath(AsEdges(w'), p);
  }

  // ----- Whole runs -----

  lemma StepKeepsInv(s: State, step: Step)
    requires Inv(s) && Enabled(s, step)
    ensures Inv(Do(s, step))
  {
    var s' := Do(s, step);
    forall u, rid ensures Owns(s', u, rid) <==> rid in s'.holder && s'.holder[rid] == u {
      assert ListsOk(s, step.t);
      KeepsHolder(s, step, u, rid);
    }
    KeepsLatch(s, step);
    KeepsAcyclic(s, step);
    forall u ensures ListsOk(s', u) && WaitOk(s', u) {
      KeepsLists(s, step, u);
      KeepsWait(s, step, u);
    }
    hide Do, Enabled, ListsOk, WaitOk, Acyclic, LatchOk, Standing;
  }

  lemma {:induction false} RunKeepsInv(s: State, steps: seq<Step>, s': State)
    requires Inv(s) && Run(s, steps, s')
    ensures Inv(s')
    decreases |steps|
  {
    if steps != [] {
      StepKeepsInv(s, steps[0]);
      RunKeepsInv(Do(s, steps[0]), steps[1..], s');
    }
  }

  /** A lock is exclusive: in no reachable state do two transactions have the same record to release. */
  lemma Exclusive(steps: seq<Step>, s: State, t: TxnId, u: TxnId, rid: RecordId)
    requires Run(Start, steps, s) && Owns(s, t, rid) && Owns(s, u, rid)
    ensures t == u
  {
    StartInv();
    RunKeepsInv(Start, steps, s);
  }

  /** The recorded wait-for graph is acyclic whenever nobody is in the middle of being refused. */
  lemma GraphAcyclic(steps: seq<Step>, s: State)
    requires Run(Start, steps, s) && forall t :: !PcOf(s, t).Refused?
    ensures Acyclic(s.waits)
  {
    StartInv();
    RunKeepsInv(Start, steps, s);
    assert Standing(s) == s.waits;
  }

  /** No lost wake-up: a sleeper nobody has notified waits on a transaction that still has the record to release. */
  lemma SleepersWaitOnHolder(steps: seq<Step>, s: State, t: TxnId)
    requires Run(Start, steps, s) && PcOf(s, t).Asleep?
    ensures t in s.waits && s.waits[t] != t && Owns(s, s.waits[t], PcOf(s, t).rid)
  {
    StartInv();
    RunKeepsInv(Start, steps, s);
    assert WaitOk(s, t);
  }

  /** No group of sleepers waits only on its own members. */
  lemma NoStuckGroup(steps: seq<Step>, s: State, group: set<TxnId>)
    requires Run(Start, steps, s) && group != {} && forall t :: t in group ==> PcOf(s, t).Asleep?
    ensures exists t, u :: t in group && u !in group && Owns(s, u, PcOf(s, t).rid)
  {
    StartInv();
    RunKeepsInv(Start, steps, s);
    NoClosedGroup(Standing(s), group);
    var t :| t in group && (t !in Standing(s) || Standing(s)[t] !in group);
    SleepersWaitOnHolder(steps, s, t);
    assert Standing(s)[t] == s.waits[t];
  }

  // ----- The graph as an object -----

  class WaitForGraph {
    var edges: Edges

    constructor ()
      ensures edges == map[]
    {
      edges := map[];
    }

    /** Record that `t` waits on `holder`, and say whether that completes a cycle. */
    method SetWaitDetect(t: TxnId, holder: TxnId) returns (cycle: bool)
      modifies this
      ensures edges == old(edges)[t := {holder}]
      ensures cycle <==> Reaches(edges, holder, t)
    {
      edges := edges[t := {holder}];
      cycle := Reachable(edges, holder, t);
    }

    method Clear(t: TxnId)
      modifies this
      ensures edges == old(edges) - {t}
    {
      edges := edges - {t};
    }
  }

  /** The machine's waits are the class's edges, step for step. */
  lemma GraphSteps(w: Waits, t: TxnId, h: TxnId)
    ensures AsEdges(w[t := h]) == AsEdges(w)[t := {h}] && AsEdges(w - {t}) == AsEdges(w) - {t}
  {
  }
}
