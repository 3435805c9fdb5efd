/** The wait-for graph: depth-first reachability, and the cycles of a graph in which everyone waits on one other. */
module WaitGraph {
  import opened Options
  import opened Visibility

  type Edges = map<TxnId, set<TxnId>>

  predicate Edge(edges: Edges, a: TxnId, b: TxnId) {
    a in edges && b in edges[a]
  }

  ghost predicate IsPath(edges: Edges, p: seq<TxnId>) {
    p != [] && forall i :: 0 <= i < |p| - 1 ==> Edge(edges, p[i], p[i + 1])
  }

  ghost predicate Reaches(edges: Edges, a: TxnId, b: TxnId) {
    exists p :: IsPath(edges, p) && p[0] == a && p[|p| - 1] == b
  }

  lemma ReachSelf(edges: Edges, a: TxnId)
    ensures Reaches(edges, a, a)
  {
    assert IsPath(edges, [a]) && [a][0] == a;
  }

  lemma ReachStep(edges: Edges, a: TxnId, b: TxnId, c: TxnId)
    requires Reaches(edges, a, b) && Edge(edges, b, c)
    ensures Reaches(edges, a, c)
  {
    var p :| IsPath(edges, p) && p[0] == a && p[|p| - 1] == b;
    var q := p + [c];
    assert IsPath(edges, q) && q[0] == a && q[|q| - 1] == c;
  }

  /** A set that contains the start and is closed under edges contains everything the start reaches. */
  lemma {:induction false} ClosedCovers(edges: Edges, seen: set<TxnId>, p: seq<TxnId>)
    requires IsPath(edges, p) && p[0] in seen
    requires forall a, b :: a in seen && Edge(edges, a, b) ==> b in seen
    ensures p[|p| - 1] in seen
  {
    if |p| > 1 {
      assert Edge(edges, p[0], p[1]);
      forall i | 0 <= i < |p[1..]| - 1 ensures Edge(edges, p[1..][i], p[1..][i + 1]) {
        assert Edge(edges, p[i + 1], p[i + 2]);
      }
      ClosedCovers(edges, seen, p[1..]);
    }
  }

  function Nodes(edges: Edges): set<TxnId> {
    edges.Keys + set a, b | a in edges && b in edges[a] :: b
  }

  /** `stack.extend(next)`. */
  method PushAll(stack: seq<TxnId>, next: set<TxnId>) returns (out: seq<TxnId>)
    ensures forall x :: x in out <==> x in stack || x in next
  {
    out := stack;
    var todo := next;
    while todo != {}
      invariant todo <= next
      invariant forall x :: x in out <==> x in stack || x in next - todo
      decreases todo
    {
      var x :| x in todo;
      out := out + [x];
      todo := todo - {x};
    }
  }

  /** `reachable`: true exactly when there is a path. */
  method Reachable(edges: Edges, start: TxnId, target: TxnId) returns (found: bool)
    ensures found <==> Reaches(edges, start, target)
  {
    ghost var all := Nodes(edges) + {start};
    var stack := [start];
    var seen: set<TxnId> := {};
    ReachSelf(edges, start);
    while stack != []
      invariant start in seen || start in stack
      invariant target !in seen && seen <= all
      invariant forall x :: x in stack ==> x in all && Reaches(edges, start, x)
      invariant forall x :: x in seen ==> Reaches(edges, start, x)
      invariant forall a, b :: a in seen && Edge(edges, a, b) ==> b in seen || b in stack
      decreases all - seen, |stack|
    {
      var node := stack[|stack| - 1];
      ghost var was := stack;
      stack := stack[..|stack| - 1];
      assert forall x :: x in was <==> x in stack || x == node;
      if node == target {
        return true;
      }
      if node in seen {
        continue;
      }
      seen := seen + {node};
      if node in edges {
        forall b | b in edges[node] ensures b in all && Reaches(edges, start, b) {
          ReachStep(edges, start, node, b);
        }
        stack := PushAll(stack, edges[node]);
      }
    }
    if Reaches(edges, start, target) {
      var p :| IsPath(edges, p) && p[0] == start && p[|p| - 1] == target;
      ClosedCovers(edges, seen, p);
      assert false;
    }
    found := false;
  }

  // ----- Everyone waits on at most one other -----

  type Waits = map<TxnId, TxnId>

  function AsEdges(w: Waits): Edges {
    map t | t in w :: {w[t]}
  }

  /** Following the waits `n` steps from `t`. */
  function Walk(w: Waits, t: TxnId, n: nat): Option<TxnId> {
    if n == 0 then Some(t)
    else match Walk(w, t, n - 1) case None => None case Some(u) => if u in w then Some(w[u]) else None
  }

  ghost predicate Acyclic(w: Waits) {
    forall t: TxnId, n: nat :: n > 0 ==> Walk(w, t, n) != Some(t)
  }

  lemma {:induction false} WalkReaches(w: Waits, t: TxnId, n: nat)
    requires Walk(w, t, n).Some?
    ensures Reaches(AsEdges(w), t, Walk(w, t, n).value)
  {
    if n == 0 {
      ReachSelf(AsEdges(w), t);
    } else {
      WalkReaches(w, t, n - 1);
      ReachStep(AsEdges(w), t, Walk(w, t, n - 1).value, Walk(w, t, n).value);
    }
  }

  /** When everyone waits on one other, a path is a walk. */
  lemma {:induction false} PathWalks(w: Waits, p: seq<TxnId>)
    requires IsPath(AsEdges(w), p)
    ensures Walk(w, p[0], |p| - 1) == Some(p[|p| - 1])
  {
    var n := |p| - 1;
    if n > 0 {
      assert Edge(AsEdges(w), p[n - 1], p[n]);
      PathWalks(w, p[..n]);
    }
  }

  lemma ReachesIffWalk(w: Waits, a: TxnId, b: TxnId)
    ensures Reaches(AsEdges(w), a, b) <==> exists n: nat :: Walk(w, a, n) == Some(b)
  {
    if Reaches(AsEdges(w), a, b) {
      var p :| IsPath(AsEdges(w), p) && p[0] == a && p[|p| - 1] == b;
      PathWalks(w, p);
    } else if n: nat :| Walk(w, a, n) == Some(b) {
      WalkReaches(w, a, n);
    }
  }

  /** Up to its first arrival at `t`, a walk does not depend on whom `t` waits on. */
  lemma {:induction false} FirstArrival(w: Waits, w': Waits, t: TxnId, x: TxnId, n: nat) returns (k: Option<nat>)
    requires forall a :: a != t ==> (a in w <==> a in w') && (a in w ==> w[a] == w'[a])
    ensures k.None? ==> Walk(w, x, n) == Walk(w', x, n)
    ensures k.Some? ==> k.value < n && Walk(w, x, k.value) == Walk(w', x, k.value) == Some(t)
  {
    if n == 0 {
      k := None;
    } else {
      k := FirstArrival(w, w', t, x, n - 1);
      if k.None? && Walk(w, x, n - 1) == Some(t) {
        k := Some(n - 1);
      }
    }
  }

  /** One who waits on nobody walks nowhere. */
  lemma {:induction false} NoWalk(w: Waits, t: TxnId, n: nat)
    requires t !in w && n > 0
    ensures Walk(w, t, n).None?
  {
    if n > 1 { NoWalk(w, t, n - 1); }
  }

  lemma {:induction false} WalkAdd(w: Waits, t: TxnId, m: nat, n: nat)
    requires Walk(w, t, m).Some?
    ensures Walk(w, t, m + n) == Walk(w, Walk(w, t, m).value, n)
  {
    if n > 0 { WalkAdd(w, t, m, n - 1); }
  }

  /** Dropping waits keeps a graph acyclic. */
  lemma {:induction false} WalkSub(w: Waits, w': Waits, t: TxnId, n: nat)
    requires forall a :: a in w' ==> a in w && w[a] == w'[a]
    requires Walk(w', t, n).Some?
    ensures Walk(w, t, n) == Walk(w', t, n)
  {
    if n > 0 { WalkSub(w, w', t, n - 1); }
  }

  lemma AcyclicSub(w: Waits, w': Waits)
    requires Acyclic(w) && forall a :: a in w' ==> a in w && w[a] == w'[a]
    ensures Acyclic(w')
  {
    forall t: TxnId, n: nat | n > 0 ensures Walk(w', t, n) != Some(t) {
      if Walk(w', t, n).Some? { WalkSub(w, w', t, n); }
    }
  }

  /** Adding the wait `t -> h` makes a cycle only if `h` already reached `t`. */
  lemma AcyclicAdd(w: Waits, t: TxnId, h: TxnId)
    requires Acyclic(w) && t !in w && !Reaches(AsEdges(w), h, t)
    ensures Acyclic(w[t := h])
  {
    var w' := w[t := h];
    forall x: TxnId, n: nat | n > 0 ensures Walk(w', x, n) != Some(x) {
      NoCycle(w, t, h, x, n);
    }
  }

  /** The first time a walk in the larger graph uses the new wait. */
  lemma {:induction false} FirstUse(w: Waits, t: TxnId, h: TxnId, x: TxnId, n: nat) returns (k: Option<nat>)
    requires t !in w && Walk(w[t := h], x, n).Some?
    ensures k.None? ==> Walk(w, x, n) == Walk(w[t := h], x, n)
    ensures k.Some? ==> k.value < n && Walk(w, x, k.value) == Some(t) && Walk(w[t := h], x, k.value) == Some(t)
  {
    if n == 0 {
      k := None;
    } else {
      k := FirstUse(w, t, h, x, n - 1);
      if k.None? && Walk(w, x, n - 1) == Some(t) {
        k := Some(n - 1);
      }
    }
  }

  lemma NoCycle(w: Waits, t: TxnId, h: TxnId, x: TxnId, n: nat)
    requires Acyclic(w) && t !in w && !Reaches(AsEdges(w), h, t) && n > 0
    ensures Walk(w[t := h], x, n) != Some(x)
  {
    var w' := w[t := h];
    if Walk(w', x, n) == Some(x) {
      var k := FirstUse(w, t, h, x, n);
      if k.Some? {
        // The cycle passes through t, so from h it comes back to t.
        WalkAdd(w', x, k.value, 1);
        WalkAdd(w', x, k.value + 1, n - k.value - 1);
        WalkAdd(w', h, n - k.value - 1, k.value);
        ReturnsTo(w, t, h, n - 1);
      }
    }
  }

  /** If in the larger graph `h` walks to `t`, it already did before. */
  lemma ReturnsTo(w: Waits, t: TxnId, h: TxnId, m: nat)
    requires t !in w && !Reaches(AsEdges(w), h, t)
    ensures Walk(w[t := h], h, m) != Some(t)
  {
    if Walk(w[t := h], h, m) == Some(t) {
      var k := FirstUse(w, t, h, h, m);
      WalkReaches(w, h, if k.None? then m else k.value);
      assert false;
    }
  }

  /** In an acyclic graph no group waits only on its own members. */
  lemma NoClosedGroup(w: Waits, group: set<TxnId>)
    requires Acyclic(w) && group != {}
    ensures exists t :: t in group && (t !in w || w[t] !in group)
  {
    if forall t :: t in group ==> t in w && w[t] in group {
      var t :| t in group;
      var trail := Trail(w, group, t, |group|);
      DistinctBound(trail, group);
      assert false;
    }
  }

  lemma {:induction false} Trail(w: Waits, group: set<TxnId>, t: TxnId, n: nat) returns (trail: seq<TxnId>)
    requires Acyclic(w) && t in group && forall x :: x in group ==> x in w && w[x] in group
    ensures |trail| == n + 1
    ensures forall i :: 0 <= i <= n ==> trail[i] in group && Walk(w, t, i) == Some(trail[i])
    ensures forall i, j :: 0 <= i < j <= n ==> trail[i] != trail[j]
  {
    if n == 0 {
      trail := [t];
    } else {
      var front := Trail(w, group, t, n - 1);
      trail := front + [w[front[n - 1]]];
      forall i | 0 <= i < n ensures trail[i] != trail[n] {
        WalkAdd(w, t, i, n - i);
      }
    }
  }

  lemma {:induction false} DistinctBound(s: seq<TxnId>, group: set<TxnId>)
    requires forall i :: 0 <= i < |s| ==> s[i] in group
    requires forall i, j :: 0 <= i < j < |s| ==> s[i] != s[j]
    ensures |s| <= |group|
  {
    if s != [] {
      var n := |s| - 1;
      DistinctBound(s[..n], group - {s[n]});
    }
  }
}
