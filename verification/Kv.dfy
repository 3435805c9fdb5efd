/**
 * A key-value namespace, one transaction at a time: versions in the record store are transactional, the
 * B+tree from keys to newest versions is not. Every operation agrees with a transactional map, up to an
 * abort, and the abort agrees exactly when the transaction lost no key: re-inserted none it had itself
 * deleted, and had none dropped by a refused insert into the tree.
 */
module Kv {
  import opened Bytes
  import opened Options
  import opened RecordHeader
  import opened Visibility
  import SP = SlottedPage
  import E = Entries
  import T = BTree
  import Sizes = BTreeSize
  import Refusal = BTreeRefusal

  type Key = seq<byte>
  type Value = seq<byte>

  const MAX_KEY_SIZE: nat := 1024

  // ----- The payload -----

  function Encode(key: Key, value: Value): (s: seq<byte>)
    requires |key| < 0x1_0000
  {
    ToLe(|key|, 2) + key + value
  }

  function DecodeValue(s: seq<byte>): Value {
    if |s| < 2 then []
    else
      var n := FromLe(s[..2]);
      if 2 + n <= |s| then s[2 + n..] else []
  }

  lemma PayloadRoundTrip(key: Key, value: Value)
    requires |key| < 0x1_0000
    ensures DecodeValue(Encode(key, value)) == value
  {
    Pow4();
    LeFits(|key|, 2);
    var s := Encode(key, value);
    assert s[..2] == ToLe(|key|, 2) && s[2 + |key|..] == value;
  }

  // ----- Versions -----

  datatype Version = Version(xmin: TxnId, xmax: TxnId, prev: Option<nat>, key: Key, payload: seq<byte>)

  /** Whether a version is visible when exactly the transactions of `seen` have taken effect. */
  predicate Shows(v: Version, seen: set<TxnId>) {
    v.xmin in seen && !(v.xmax != NO_TXN && v.xmax in seen)
  }

  /** `read`: the first visible version along the chain. */
  function Read(vs: seq<Version>, i: nat, seen: set<TxnId>): Option<Value>
    requires i < |vs|
    decreases i
  {
    if Shows(vs[i], seen) then Some(DecodeValue(vs[i].payload))
    else if vs[i].prev.Some? && vs[i].prev.value < i then Read(vs, vs[i].prev.value, seen)
    else None
  }

  /** Back pointers go to earlier versions of the same key, superseded by the version that points. */
  ghost predicate Chained(vs: seq<Version>) {
    forall i :: 0 <= i < |vs| && vs[i].prev.Some? ==>
      vs[i].prev.value < i && vs[vs[i].prev.value].key == vs[i].key && vs[vs[i].prev.value].xmax == vs[i].xmin
  }

  /** A version in effect supersedes only versions in effect. */
  ghost predicate Closed(vs: seq<Version>, seen: set<TxnId>) {
    forall i :: 0 <= i < |vs| && vs[i].prev.Some? && vs[i].prev.value < |vs| && vs[i].xmin in seen ==>
      vs[vs[i].prev.value].xmin in seen
  }

  ghost predicate Named(vs: seq<Version>, cur: TxnId) {
    forall i :: 0 <= i < |vs| ==> NO_TXN < vs[i].xmin <= cur && vs[i].xmax <= cur
  }

  /** Nothing below a version in effect is visible. */
  lemma {:induction false} DeadBelow(vs: seq<Version>, i: nat, seen: set<TxnId>)
    requires Chained(vs) && Closed(vs, seen) && i < |vs| && vs[i].xmin in seen && NO_TXN !in seen
    ensures vs[i].prev.Some? ==> Read(vs, vs[i].prev.value, seen).None?
    decreases i
  {
    if vs[i].prev.Some? {
      DeadBelow(vs, vs[i].prev.value, seen);
    }
  }

  /** A read depends only on the versions of its key, and of those only on how they show. */
  lemma {:induction false} ReadSame(vs: seq<Version>, vs': seq<Version>, i: nat, seen: set<TxnId>, seen': set<TxnId>)
    requires Chained(vs) && i < |vs| <= |vs'|
    requires forall j :: 0 <= j <= i && vs[j].key == vs[i].key ==>
      vs'[j].prev == vs[j].prev && vs'[j].payload == vs[j].payload && (Shows(vs'[j], seen') <==> Shows(vs[j], seen))
    ensures Read(vs', i, seen') == Read(vs, i, seen)
    decreases i
  {
    if !Shows(vs[i], seen) && vs[i].prev.Some? {
      ReadSame(vs, vs', vs[i].prev.value, seen, seen');
    }
  }

  // ----- The index -----

  type Index = map<Key, nat>

  ghost predicate IndexOk(vs: seq<Version>, index: Index) {
    forall k :: k in index ==> index[k] < |vs| && vs[index[k]].key == k
  }

  function Lookup(vs: seq<Version>, index: Index, k: Key, seen: set<TxnId>): Option<Value> {
    if k in index && index[k] < |vs| then Read(vs, index[k], seen) else None
  }

  function Get(m: map<Key, Value>, k: Key): Option<Value> { if k in m then Some(m[k]) else None }

  /** What the namespace shows, when exactly `seen` have taken effect, is the map `m`. */
  ghost predicate Agrees(vs: seq<Version>, index: Index, seen: set<TxnId>, m: map<Key, Value>) {
    forall k :: Lookup(vs, index, k, seen) == Get(m, k)
  }

  // ----- The state and its steps -----

  /** What the namespace would show if the running transaction were gone: the committed map, less the lost keys. */
  ghost predicate Fallback(vs: seq<Version>, index: Index, done: set<TxnId>, committed: map<Key, Value>, lost: set<Key>)
  {
    lost <= committed.Keys && forall k :: Lookup(vs, index, k, done) == if k in lost then None else Get(committed, k)
  }

  ghost predicate VersionsOk(vs: seq<Version>, index: Index, done: set<TxnId>, cur: TxnId) {
    && Chained(vs) && Closed(vs, done) && Closed(vs, done + {cur}) && Named(vs, cur) && IndexOk(vs, index)
    && (forall t :: t in done ==> NO_TXN < t < cur) && cur > NO_TXN
  }

  function Stamp(vs: seq<Version>, i: nat, t: TxnId): seq<Version>
    requires i < |vs|
  {
    vs[i := vs[i].(xmax := t)]
  }

  /** `check_writable` on the version the index names: in effect, and stamped by nobody. */
  predicate Free(vs: seq<Version>, i: nat, done: set<TxnId>, cur: TxnId) {
    i < |vs| && vs[i].xmin in done + {cur} && vs[i].xmax == NO_TXN
  }

  lemma StampOk(vs: seq<Version>, index: Index, done: set<TxnId>, cur: TxnId, i: nat)
    requires VersionsOk(vs, index, done, cur) && Free(vs, i, done, cur)
    ensures VersionsOk(Stamp(vs, i, cur), index, done, cur)
  {
    var vs' := Stamp(vs, i, cur);
    forall j | 0 <= j < |vs'| && vs'[j].prev.Some?
      ensures vs'[j].prev.value < j && vs'[vs'[j].prev.value].key == vs'[j].key
        && vs'[vs'[j].prev.value].xmax == vs'[j].xmin
    {
      assert vs[vs[j].prev.value].xmax == vs[j].xmin > NO_TXN;
    }
  }

  /** Stamping one version by the running transaction changes nothing for those who do not see it. */
  lemma StampUnseen(vs: seq<Version>, index: Index, done: set<TxnId>, cur: TxnId, i: nat, k: Key)
    requires VersionsOk(vs, index, done, cur) && Free(vs, i, done, cur)
    ensures Lookup(Stamp(vs, i, cur), index, k, done) == Lookup(vs, index, k, done)
  {
    if k in index {
      ReadSame(vs, Stamp(vs, i, cur), index[k], done, done);
    }
  }

  lemma StampOthers(vs: seq<Version>, index: Index, done: set<TxnId>, cur: TxnId, i: nat, k: Key)
    requires VersionsOk(vs, index, done, cur) && Free(vs, i, done, cur) && vs[i].key != k
    ensures Lookup(Stamp(vs, i, cur), index, k, done + {cur}) == Lookup(vs, index, k, done + {cur})
  {
    if k in index {
      ReadSame(vs, Stamp(vs, i, cur), index[k], done + {cur}, done + {cur});
    }
  }

  /** Once its newest version is stamped by the running transaction, the key is gone for that transaction. */
  lemma StampHides(vs: seq<Version>, index: Index, done: set<TxnId>, cur: TxnId, k: Key)
    requires VersionsOk(vs, index, done, cur) && k in index && Free(vs, index[k], done, cur)
    ensures Lookup(Stamp(vs, index[k], cur), index, k, done + {cur}) == None
  {
    var i := index[k];
    StampOk(vs, index, done, cur, i);
    DeadBelow(Stamp(vs, i, cur), i, done + {cur});
  }

  /** Appending a version of `k` by the running transaction. */
  function Grow(vs: seq<Version>, cur: TxnId, prev: Option<nat>, k: Key, payload: seq<byte>): seq<Version> {
    vs + [Version(cur, NO_TXN, prev, k, payload)]
  }

  lemma GrowOk(vs: seq<Version>, index: Index, done: set<TxnId>, cur: TxnId, prev: Option<nat>, k: Key,
               payload: seq<byte>)
    requires VersionsOk(vs, index, done, cur)
    requires prev.Some? ==>
      prev.value < |vs| && vs[prev.value].key == k && vs[prev.value].xmax == cur && vs[prev.value].xmin in done + {cur}
    ensures VersionsOk(Grow(vs, cur, prev, k, payload), index[k := |vs|], done, cur)
  {
  }

  /** The new version is what its transaction sees; others see through it to what it points back to. */
  lemma GrowShows(vs: seq<Version>, index: Index, done: set<TxnId>, cur: TxnId, prev: Option<nat>, k: Key,
                  payload: seq<byte>, k': Key)
    requires VersionsOk(vs, index, done, cur) && (prev.Some? ==> prev.value < |vs|)
    ensures var vs', index' := Grow(vs, cur, prev, k, payload), index[k := |vs|];
      && (Lookup(vs', index', k', done + {cur}) ==
           if k' == k then Some(DecodeValue(payload)) else Lookup(vs, index, k', done + {cur}))
      && (Lookup(vs', index', k', done) ==
          if k' != k then Lookup(vs, index, k', done) else if prev.None? then None else Read(vs, prev.value, done))
  {
    var vs' := Grow(vs, cur, prev, k, payload);
    if k' == k {
      if prev.Some? { ReadSame(vs, vs', prev.value, done, done); }
    } else if k' in index {
      ReadSame(vs, vs', index[k'], done, done);
      ReadSame(vs, vs', index[k'], done + {cur}, done + {cur});
    }
  }

  ghost predicate KvOk(vs: seq<Version>, index: Index, done: set<TxnId>, cur: TxnId,
                       committed: map<Key, Value>, working: map<Key, Value>, lost: set<Key>) {
    VersionsOk(vs, index, done, cur) && Agrees(vs, index, done + {cur}, working)
      && Fallback(vs, index, done, committed, lost)
  }

  /** `put` of a key the transaction does not see: a new record with no history. */
  lemma PutFresh(vs: seq<Version>, index: Index, done: set<TxnId>, cur: TxnId, committed: map<Key, Value>,
                 working: map<Key, Value>, lost: set<Key>, k: Key, v: Value, payload: seq<byte>)
    requires KvOk(vs, index, done, cur, committed, working, lost) && DecodeValue(payload) == v
    ensures KvOk(Grow(vs, cur, None, k, payload), index[k := |vs|], done, cur, committed, working[k := v],
                 if k in committed then lost + {k} else lost)
  {
    var vs', index' := Grow(vs, cur, None, k, payload), index[k := |vs|];
    GrowOk(vs, index, done, cur, None, k, payload);
    forall k'
      ensures Lookup(vs', index', k', done + {cur}) == Get(working[k := v], k')
      ensures Lookup(vs', index', k', done) ==
        if k' in (if k in committed then lost + {k} else lost) then None else Get(committed, k')
    {
      GrowShows(vs, index, done, cur, None, k, payload, k');
      assert Lookup(vs, index, k', done + {cur}) == Get(working, k');
      assert Lookup(vs, index, k', done) == if k' in lost then None else Get(committed, k');
    }
  }

  /** `put` over the version the transaction sees. */
  lemma PutOver(vs: seq<Version>, index: Index, done: set<TxnId>, cur: TxnId, committed: map<Key, Value>,
                working: map<Key, Value>, lost: set<Key>, k: Key, v: Value, payload: seq<byte>)
    requires KvOk(vs, index, done, cur, committed, working, lost) && DecodeValue(payload) == v
    requires k in index && Free(vs, index[k], done, cur)
    ensures KvOk(Grow(Stamp(vs, index[k], cur), cur, Some(index[k]), k, payload), index[k := |vs|], done, cur,
                 committed, working[k := v], lost)
  {
    var i, vs1 := index[k], Stamp(vs, index[k], cur);
    var vs', index' := Grow(vs1, cur, Some(i), k, payload), index[k := |vs|];
    StampOk(vs, index, done, cur, i);
    GrowOk(vs1, index, done, cur, Some(i), k, payload);
    forall k'
      ensures Lookup(vs', index', k', done + {cur}) == Get(working[k := v], k')
      ensures Lookup(vs', index', k', done) == if k' in lost then None else Get(committed, k')
    {
      GrowShows(vs1, index, done, cur, Some(i), k, payload, k');
      StampUnseen(vs, index, done, cur, i, k');
      if k' != k { StampOthers(vs, index, done, cur, i, k'); }
      assert Lookup(vs, index, k', done + {cur}) == Get(working, k');
      assert Lookup(vs, index, k', done) == if k' in lost then None else Get(committed, k');
    }
  }

  lemma DeleteOver(vs: seq<Version>, index: Index, done: set<TxnId>, cur: TxnId, committed: map<Key, Value>,
                   working: map<Key, Value>, lost: set<Key>, k: Key)
    requires KvOk(vs, index, done, cur, committed, working, lost) && k in index && Free(vs, index[k], done, cur)
    ensures KvOk(Stamp(vs, index[k], cur), index, done, cur, committed, working - {k}, lost)
  {
    var vs' := Stamp(vs, index[k], cur);
    StampOk(vs, index, done, cur, index[k]);
    forall k'
      ensures Lookup(vs', index, k', done + {cur}) == Get(working - {k}, k')
      ensures Lookup(vs', index, k', done) == if k' in lost then None else Get(committed, k')
    {
      StampUnseen(vs, index, done, cur, index[k], k');
      if k' != k { StampOthers(vs, index, done, cur, index[k], k'); } else { StampHides(vs, index, done, cur, k); }
      assert Lookup(vs, index, k', done + {cur}) == Get(working, k');
      assert Lookup(vs, index, k', done) == if k' in lost then None else Get(committed, k');
    }
  }

  // ----- When the index refuses -----

  /** A version nobody can find changes nothing. */
  lemma GrowUnfound(vs: seq<Version>, index: Index, done: set<TxnId>, cur: TxnId, committed: map<Key, Value>,
                    working: map<Key, Value>, lost: set<Key>, prev: Option<nat>, k: Key, payload: seq<byte>)
    requires KvOk(vs, index, done, cur, committed, working, lost)
    requires prev.Some? ==>
      prev.value < |vs| && vs[prev.value].key == k && vs[prev.value].xmax == cur && vs[prev.value].xmin in done + {cur}
    ensures KvOk(Grow(vs, cur, prev, k, payload), index, done, cur, committed, working, lost)
  {
    var vs' := Grow(vs, cur, prev, k, payload);
    GrowOk(vs, index, done, cur, prev, k, payload);
    forall k'
      ensures Lookup(vs', index, k', done + {cur}) == Lookup(vs, index, k', done + {cur})
      ensures Lookup(vs', index, k', done) == Lookup(vs, index, k', done)
    {
      if k' in index {
        ReadSame(vs, vs', index[k'], done, done);
        ReadSame(vs, vs', index[k'], done + {cur}, done + {cur});
      }
    }
    hide Lookup;
    assert forall k' :: Lookup(vs, index, k', done + {cur}) == Get(working, k');
    assert forall k' :: Lookup(vs, index, k', done) == if k' in lost then None else Get(committed, k');
  }

  /** `put` over the version the transaction sees, with the index left at that version: the key is gone. */
  lemma PutOverUnfound(vs: seq<Version>, index: Index, done: set<TxnId>, cur: TxnId, committed: map<Key, Value>,
                       working: map<Key, Value>, lost: set<Key>, k: Key, payload: seq<byte>)
    requires KvOk(vs, index, done, cur, committed, working, lost) && k in index && Free(vs, index[k], done, cur)
    ensures KvOk(Grow(Stamp(vs, index[k], cur), cur, Some(index[k]), k, payload), index, done, cur, committed,
      working - {k}, lost)
  {
    DeleteOver(vs, index, done, cur, committed, working, lost, k);
    hide Lookup, Agrees, Fallback;
    GrowUnfound(Stamp(vs, index[k], cur), index, done, cur, committed, working - {k}, lost, Some(index[k]), k, payload);
  }

  /** Keys dropped from the index are gone, for this transaction and for those after it. */
  lemma IndexLoses(vs: seq<Version>, index: Index, done: set<TxnId>, cur: TxnId, committed: map<Key, Value>,
                   working: map<Key, Value>, lost: set<Key>, gone: set<Key>)
    requires KvOk(vs, index, done, cur, committed, working, lost)
    ensures KvOk(vs, index - gone, done, cur, committed, working - gone, lost + gone * committed.Keys)
  {
    forall k
      ensures Lookup(vs, index - gone, k, done + {cur}) == Get(working - gone, k)
      ensures Lookup(vs, index - gone, k, done) == if k in lost + gone * committed.Keys then None else Get(committed, k)
    {
      assert Lookup(vs, index, k, done + {cur}) == Get(working, k);
      assert Lookup(vs, index, k, done) == if k in lost then None else Get(committed, k);
    }
  }

  // ----- Ending a transaction -----

  /** To a transaction that has done nothing yet, its own id makes no difference. */
  lemma NewcomerSees(vs: seq<Version>, index: Index, done: set<TxnId>, cur: TxnId, next: TxnId, k: Key)
    requires VersionsOk(vs, index, done, cur) && next > cur
    ensures Lookup(vs, index, k, done + {next}) == Lookup(vs, index, k, done)
    ensures Lookup(vs, index, k, done + {cur} + {next}) == Lookup(vs, index, k, done + {cur})
  {
    if k in index {
      ReadSame(vs, vs, index[k], done, done + {next});
      ReadSame(vs, vs, index[k], done + {cur}, done + {cur} + {next});
    }
  }

  lemma EndOk(vs: seq<Version>, index: Index, done: set<TxnId>, cur: TxnId)
    requires VersionsOk(vs, index, done, cur)
    ensures VersionsOk(vs, index, done, cur + 1) && VersionsOk(vs, index, done + {cur}, cur + 1)
  {
    forall i | 0 <= i < |vs| ensures vs[i].xmin != cur + 1 {
    }
  }

  lemma CommitOk(vs: seq<Version>, index: Index, done: set<TxnId>, cur: TxnId, committed: map<Key, Value>,
                 working: map<Key, Value>, lost: set<Key>)
    requires KvOk(vs, index, done, cur, committed, working, lost)
    ensures KvOk(vs, index, done + {cur}, cur + 1, working, working, {})
  {
    EndOk(vs, index, done, cur);
    forall k
      ensures Lookup(vs, index, k, done + {cur} + {cur + 1}) == Get(working, k)
        && Lookup(vs, index, k, done + {cur}) == Get(working, k)
    {
      NewcomerSees(vs, index, done, cur, cur + 1, k);
    }
  }

  /**
   * After an abort the next transaction sees the committed map less the lost keys, hence the committed map
   * exactly when no key was lost.
   */
  lemma AbortIff(vs: seq<Version>, index: Index, done: set<TxnId>, cur: TxnId, committed: map<Key, Value>,
                 working: map<Key, Value>, lost: set<Key>)
    requires KvOk(vs, index, done, cur, committed, working, lost)
    ensures Agrees(vs, index, done + {cur + 1}, committed) <==> lost == {}
    ensures KvOk(vs, index, done, cur + 1, committed - lost, committed - lost, {})
    ensures lost <= committed.Keys
  {
    EndOk(vs, index, done, cur);
    forall k
      ensures Lookup(vs, index, k, done + {cur + 1}) == Get(committed - lost, k)
      ensures Lookup(vs, index, k, done) == Get(committed - lost, k)
    {
      NewcomerSees(vs, index, done, cur, cur + 1, k);
    }
    if lost != {} {
      var k :| k in lost;
      assert Lookup(vs, index, k, done + {cur + 1}) != Get(committed, k);
    }
  }

  // ----- The namespace -----

  datatype Outcome = Done | KeyTooLarge | Conflict | RecordTooLarge | IndexRefused

  /** The checks a put makes before it writes, in their order. */
  function PutCheck(vs: seq<Version>, index: Index, done: set<TxnId>, cur: TxnId, k: Key, v: Value): Outcome {
    if |k| > MAX_KEY_SIZE then KeyTooLarge
    else if Lookup(vs, index, k, done + {cur}).Some? && !Free(vs, index[k], done, cur) then Conflict
    else if !Fits(k, v) then RecordTooLarge
    else Done
  }

  predicate Fits(k: Key, v: Value) { HEADER_SIZE + 2 + |k| + |v| <= SP.MAX_RECORD_LEN }

  /** What a put reports: the check that fails, and otherwise the index's answer. */
  predicate Follows(r: Outcome, check: Outcome) { if check == Done then r == Done || r == IndexRefused else r == check }

  /** The record id that names version `n`. */
  function RidOf(n: nat): RecordId { RecordId(n, 0) }

  /** The entries of the tree are the bindings of `index`. */
  ghost predicate IndexIs(index: Index, es: seq<E.Entry>) {
    E.Sorted(es) && forall k :: E.Find(es, k) == if k in index then Some(RidOf(index[k])) else None
  }

  /** The keys an abort would lose after `k` has been put. */
  ghost function More(committed: map<Key, Value>, working: map<Key, Value>, lost: set<Key>, k: Key): set<Key> {
    lost + if k in committed && k !in working then {k} else {}
  }

  /** A version of `k` has been written: whether the index is moved to it or not, the namespace is a map. */
  ghost predicate Written(vs: seq<Version>, index: Index, done: set<TxnId>, cur: TxnId,
                          committed: map<Key, Value>, working: map<Key, Value>, lost: set<Key>, k: Key, v: Value) {
    && vs != [] && Free(vs, |vs| - 1, done, cur)
    && KvOk(vs, index[k := |vs| - 1], done, cur, committed, working[k := v], More(committed, working, lost, k))
    && KvOk(vs, index, done, cur, committed, working - {k}, lost)
  }

  lemma WrittenParts(vs: seq<Version>, index: Index, done: set<TxnId>, cur: TxnId,
                     committed: map<Key, Value>, working: map<Key, Value>, lost: set<Key>, k: Key, v: Value)
    requires Written(vs, index, done, cur, committed, working, lost, k, v)
    ensures vs != [] && Free(vs, |vs| - 1, done, cur)
    ensures KvOk(vs, index[k := |vs| - 1], done, cur, committed, working[k := v], More(committed, working, lost, k))
    ensures KvOk(vs, index, done, cur, committed, working - {k}, lost)
  {
  }

  // ----- Keys nobody can write any more -----

  /** `t` has ended and did not commit. */
  predicate Dropped(t: TxnId, done: set<TxnId>, cur: TxnId) { t < cur && t !in done }

  /** The newest version of `k` was made or stamped by a transaction that aborted. */
  predicate Stuck(vs: seq<Version>, index: Index, done: set<TxnId>, cur: TxnId, k: Key) {
    && k in index && index[k] < |vs|
    && var v := vs[index[k]]; Dropped(v.xmin, done, cur) || (v.xmax != NO_TXN && Dropped(v.xmax, done, cur))
  }

  predicate Touched(vs: seq<Version>, i: nat, t: TxnId) { i < |vs| && (vs[i].xmin == t || vs[i].xmax == t) }

  lemma VersionsKnown(vs: seq<Version>, index: Index, done: set<TxnId>, cur: TxnId, committed: map<Key, Value>,
                      working: map<Key, Value>, lost: set<Key>)
    requires KvOk(vs, index, done, cur, committed, working, lost)
    ensures VersionsOk(vs, index, done, cur)
  {
  }

  /** A key the transaction sees can be written if and only if it is not stuck. */
  lemma ConflictIff(vs: seq<Version>, index: Index, done: set<TxnId>, cur: TxnId, committed: map<Key, Value>,
                    working: map<Key, Value>, lost: set<Key>, k: Key, v: Value)
    requires KvOk(vs, index, done, cur, committed, working, lost) && k in working && |k| <= MAX_KEY_SIZE
    ensures PutCheck(vs, index, done, cur, k, v) == Conflict <==> Stuck(vs, index, done, cur, k)
  {
    InIndex(vs, index, done, cur, committed, working, lost, k);
    var i := index[k];
    if vs[i].xmin in done + {cur} && vs[i].xmax in done + {cur} {
      DeadBelow(vs, i, done + {cur});
    }
  }

  /** An abort makes stuck exactly the keys whose newest version its transaction made or stamped. */
  lemma StuckByAbortIff(vs: seq<Version>, index: Index, done: set<TxnId>, cur: TxnId)
    requires VersionsOk(vs, index, done, cur)
    ensures forall k :: Stuck(vs, index, done, cur + 1, k) <==>
      Stuck(vs, index, done, cur, k) || (k in index && Touched(vs, index[k], cur))
  {
  }

  lemma StuckPastCommit(vs: seq<Version>, index: Index, done: set<TxnId>, cur: TxnId)
    requires VersionsOk(vs, index, done, cur)
    ensures forall k :: Stuck(vs, index, done + {cur}, cur + 1, k) <==> Stuck(vs, index, done, cur, k)
  {
  }

  /** Keys bound before and after are stuck after if they were before. */
  ghost predicate StuckKept(vs: seq<Version>, index: Index, working: map<Key, Value>, vs': seq<Version>, index': Index,
                            working': map<Key, Value>, done: set<TxnId>, cur: TxnId) {
    forall j :: j in working && j in working' && Stuck(vs, index, done, cur, j) ==> Stuck(vs', index', done, cur, j)
  }

  /** Writing a version of `k` over the free version `over`, or as a new one, unsticks nothing. */
  lemma KeptSame(vs: seq<Version>, index: Index, working: map<Key, Value>, done: set<TxnId>, cur: TxnId)
    ensures StuckKept(vs, index, working, vs, index, working, done, cur)
  {
  }

  lemma WriteKeepsStuck(vs: seq<Version>, index: Index, committed: map<Key, Value>, working: map<Key, Value>,
                        lost: set<Key>, vs': seq<Version>, index': Index, working': map<Key, Value>, lost': set<Key>,
                        done: set<TxnId>, cur: TxnId, k: Key, over: Option<nat>)
    requires KvOk(vs, index, done, cur, committed, working, lost)
    requires KvOk(vs', index', done, cur, committed, working', lost')
    requires if k in working then k in index && over == Some(index[k]) && Free(vs, index[k], done, cur) else over.None?
    requires |vs| <= |vs'| && forall i :: 0 <= i < |vs| && over != Some(i) ==> vs'[i] == vs[i]
    requires forall j :: j in index' && j in index && j != k ==> index'[j] == index[j]
    ensures StuckKept(vs, index, working, vs', index', working', done, cur)
  {
    forall j | j in working && j in working' && Stuck(vs, index, done, cur, j)
      ensures Stuck(vs', index', done, cur, j)
    {
      InIndex(vs', index', done, cur, committed, working', lost', j);
      assert j != k;
      assert over != Some(index[j]);
    }
  }

  /** One transaction after another; ending one begins the next. */
  class KvNamespace {
    var vs: seq<Version>
    const tree: T.BTree
    var done: set<TxnId>
    var cur: TxnId
    ghost var index: Index
    ghost var committed: map<Key, Value>
    ghost var working: map<Key, Value>
    ghost var lost: set<Key>

    ghost predicate Valid()
      reads this, tree
    {
      tree.Valid() && IndexIs(index, tree.Contents()) && KvOk(vs, index, done, cur, committed, working, lost)
    }

    constructor (order: nat, root: nat)
      ensures Valid() && fresh(tree) && committed == map[] && working == map[] && lost == {}
      ensures T.ShortAll(tree.pages)
    {
      vs, done, cur := [], {}, FIRST_USER_TXN;
      index, committed, working, lost := map[], map[], map[], {};
      tree := new T.BTree(order, root);
      new;
      NothingFound();
    }

    /** Where the index says the newest version of `k` is. */
    method Find(k: Key) returns (i: Option<nat>)
      requires Valid()
      ensures i == if k in index then Some(index[k]) else None
      ensures i.Some? ==> i.value < |vs|
    {
      var rid := tree.Search(k);
      i := if rid.Some? then Some(rid.value.page) else None;
    }

    method GetKey(k: Key) returns (v: Option<Value>)
      requires Valid()
      ensures v == Get(working, k)
    {
      var i := Find(k);
      assert Lookup(vs, index, k, done + {cur}) == Get(working, k);
      v := if i.Some? then Read(vs, i.value, done + {cur}) else None;
    }

    /** Point the index at the version just written; refused, it is as it was or has lost `gone`. */
    method Reindex(k: Key, n: nat) returns (ok: bool, ghost kept: bool, ghost gone: set<Key>)
      requires tree.Valid() && IndexIs(index, tree.Contents())
      modifies this`index, tree
      ensures tree.Valid() && IndexIs(index, tree.Contents())
      ensures ok ==> index == old(index)[k := n]
      ensures !ok ==> index == if kept then old(index) else old(index)[k := n] - gone
      ensures T.ShortAll(old(tree.pages)) && |k| <= Sizes.MAX_KEY ==> ok && T.ShortAll(tree.pages)
    {
      ghost var was := tree.Contents();
      UpsertedIndex(index, was, k, n);
      ok := tree.Insert(k, RidOf(n));
      kept, gone := false, {};
      if ok {
        index := index[k := n];
      } else if T.Cut(E.Upsert(was, k, RidOf(n)), tree.Contents()) {
        gone := Refusal.CutForgets(E.Upsert(was, k, RidOf(n)), tree.Contents());
        index := index[k := n] - gone;
      } else {
        kept := true;
      }
    }

    /**
     * Upsert. A key put back after the transaction's own delete, and there before it began, joins the lost
     * keys. If the index refuses, the version is written and cannot be found: the key is unbound, and so
     * are the keys the index has dropped, for this transaction and later ones.
     */
    method Put(k: Key, v: Value) returns (r: Outcome, ghost gone: set<Key>)
      requires Valid()
      modifies this`vs, this`index, this`working, this`lost, tree
      ensures Valid()
      ensures Follows(r, old(PutCheck(vs, index, done, cur, k, v)))
      ensures T.ShortAll(old(tree.pages)) && |k| <= Sizes.MAX_KEY ==> r != IndexRefused && T.ShortAll(tree.pages)
      ensures r == Done ==> working == old(working)[k := v] && k in index && Free(vs, index[k], done, cur)
      ensures r == Done ==> index[k] < |vs| && vs[index[k]].xmin == cur
      ensures StuckKept(old(vs), old(index), old(working), vs, index, working, done, cur)
      ensures r == Done ==> lost == More(committed, old(working), old(lost), k)
      ensures r == IndexRefused ==>
        || (working == old(working) - {k} && lost == old(lost))
        || (working == old(working)[k := v] - gone
            && lost == More(committed, old(working), old(lost), k) + gone * committed.Keys)
      ensures r != Done && r != IndexRefused ==>
        vs == old(vs) && index == old(index) && working == old(working) && lost == old(lost)
    {
      hide KvOk, Lookup, Agrees, Free, IndexIs, Written, Stuck;
      gone := {};
      if |k| > MAX_KEY_SIZE {
        return KeyTooLarge, gone;
      }
      var seen := GetKey(k);
      var i := Find(k);
      InIndex(vs, index, done, cur, committed, working, lost, k);
      if seen.Some? && !Free(vs, i.value, done, cur) {
        return Conflict, gone;
      }
      if !Fits(k, v) {
        return RecordTooLarge, gone;
      }
      r, gone := Bind(k, v, if seen.Some? then i else None);
    }

    /** The second half of a put: write the version, then point the index at it. */
    method Bind(k: Key, v: Value, over: Option<nat>) returns (r: Outcome, ghost gone: set<Key>)
      requires Valid() && |k| <= MAX_KEY_SIZE && (over.Some? <==> k in working)
      requires over.Some? ==> k in index && over.value == index[k] && Free(vs, index[k], done, cur)
      modifies this`vs, this`index, this`working, this`lost, tree
      ensures Valid() && (r == Done || r == IndexRefused)
      ensures T.ShortAll(old(tree.pages)) && |k| <= Sizes.MAX_KEY ==> r != IndexRefused && T.ShortAll(tree.pages)
      ensures r == Done ==> working == old(working)[k := v] && k in index && Free(vs, index[k], done, cur)
      ensures r == Done ==> index[k] < |vs| && vs[index[k]].xmin == cur
      ensures r == Done ==> lost == More(committed, old(working), old(lost), k)
      ensures r == IndexRefused ==>
        || (working == old(working) - {k} && lost == old(lost))
        || (working == old(working)[k := v] - gone
            && lost == More(committed, old(working), old(lost), k) + gone * committed.Keys)
      ensures StuckKept(old(vs), old(index), old(working), vs, index, working, done, cur)
    {
      hide KvOk, Lookup, Agrees, Free, IndexIs, Written, Stuck, StuckKept;
      ghost var was, had, missed := index, working, lost;
      Write(k, v, over);
      WrittenParts(vs, index, done, cur, committed, working, lost, k, v);
      ghost var bound := index[k := |vs| - 1];
      var ok;
      ghost var kept;
      ok, kept, gone := Reindex(k, |vs| - 1);
      r := if ok then Done else IndexRefused;
      if ok {
        working, lost := working[k := v], More(committed, working, lost, k);
      } else if kept {
        working := working - {k};
      } else {
        IndexLoses(vs, bound, done, cur, committed, working[k := v], More(committed, working, lost, k), gone);
        working, lost := working[k := v] - gone, More(committed, working, lost, k) + gone * committed.Keys;
      }
      WriteKeepsStuck(old(vs), was, committed, had, missed, vs, index, working, lost, done, cur, k, over);
    }

    /** The record of a put: over the version seen, or a new one. */
    method Write(k: Key, v: Value, over: Option<nat>)
      requires KvOk(vs, index, done, cur, committed, working, lost) && |k| <= MAX_KEY_SIZE
      requires over.Some? <==> k in working
      requires over.Some? ==> k in index && over.value == index[k] && Free(vs, index[k], done, cur)
      modifies this`vs
      ensures Written(vs, index, done, cur, committed, working, lost, k, v)
      ensures |vs| == |old(vs)| + 1 && vs[|old(vs)|].xmin == cur
      ensures forall i :: 0 <= i < |old(vs)| && over != Some(i) ==> vs[i] == old(vs)[i]
    {
      hide KvOk, Lookup, Agrees, Free;
      PayloadRoundTrip(k, v);
      var payload := Encode(k, v);
      hide Encode, DecodeValue;
      if over.Some? {
        PutOver(vs, index, done, cur, committed, working, lost, k, v, payload);
        PutOverUnfound(vs, index, done, cur, committed, working, lost, k, payload);
        FreeBound(vs, over.value, done, cur);
        assert More(committed, working, lost, k) == lost;
        vs := Grow(Stamp(vs, over.value, cur), cur, over, k, payload);
      } else {
        PutFresh(vs, index, done, cur, committed, working, lost, k, v, payload);
        GrowUnfound(vs, index, done, cur, committed, working, lost, None, k, payload);
        assert working - {k} == working;
        assert More(committed, working, lost, k) == if k in committed then lost + {k} else lost;
        vs := Grow(vs, cur, None, k, payload);
      }
      NewestFree(vs, done, cur);
    }

    method Delete(k: Key) returns (r: Result<bool>)
      requires Valid()
      modifies this`vs, this`working
      ensures Valid()
      ensures r.Err? <==> old(Get(working, k).Some? && k in index && !Free(vs, index[k], done, cur))
      ensures r.Ok? ==> (r.value <==> k in old(working)) && working == old(working) - {k}
      ensures r.Err? ==> vs == old(vs) && working == old(working)
      ensures StuckKept(old(vs), index, old(working), vs, index, working, done, cur)
    {
      hide KvOk, Lookup, Agrees, Free, IndexIs, Stuck;
      var seen := GetKey(k);
      var i := Find(k);
      InIndex(vs, index, done, cur, committed, working, lost, k);
      if seen.None? {
        assert working - {k} == working;
        return Ok(false);
      }
      if !Free(vs, i.value, done, cur) {
        return Err;
      }
      DeleteOver(vs, index, done, cur, committed, working, lost, k);
      FreeBound(vs, i.value, done, cur);
      ghost var had := working;
      vs := Stamp(vs, i.value, cur);
      working := working - {k};
      WriteKeepsStuck(old(vs), index, committed, had, lost, vs, index, working, lost, done, cur, k, i);
      r := Ok(true);
    }

    /** A put of a key that is not there: it meets no conflict, and with a short key and room it is done. */
    method PutIfAbsent(k: Key, v: Value) returns (set': bool, r: Outcome, ghost gone: set<Key>)
      requires Valid()
      modifies this`vs, this`index, this`working, this`lost, tree
      ensures Valid()
      ensures k in old(working) ==> !set' && r == Done
      ensures k !in old(working) ==> (set' <==> r == Done) && r != Conflict
      ensures k !in old(working) ==> Follows(r, old(PutCheck(vs, index, done, cur, k, v)))
      ensures k !in old(working) && |k| <= Sizes.MAX_KEY && Fits(k, v) && T.ShortAll(old(tree.pages)) ==>
        set' && r == Done
      ensures r == Done && set' ==> working == old(working)[k := v] && k in index && Free(vs, index[k], done, cur)
      ensures r == Done && set' ==> lost == More(committed, old(working), old(lost), k)
      ensures r == IndexRefused ==>
        || (working == old(working) - {k} && lost == old(lost))
        || (working == old(working)[k := v] - gone
            && lost == More(committed, old(working), old(lost), k) + gone * committed.Keys)
      ensures !set' && r != IndexRefused ==>
        vs == old(vs) && index == old(index) && working == old(working) && lost == old(lost)
      ensures StuckKept(old(vs), old(index), old(working), vs, index, working, done, cur)
      ensures T.ShortAll(old(tree.pages)) && |k| <= Sizes.MAX_KEY ==> r != IndexRefused && T.ShortAll(tree.pages)
    {
      hide KvOk, Lookup, Agrees, Free, IndexIs, Stuck, T.ShortAll;
      gone := {};
      var seen := GetKey(k);
      if seen.Some? {
        KeptSame(vs, index, working, done, cur);
        return false, Done, gone;
      }
      Unbound(vs, index, done, cur, committed, working, lost, k, v);
      r, gone := Put(k, v);
      set' := r == Done;
    }

    /** A put of a key that holds the value expected: it meets a conflict if and only if the key is stuck. */
    method CompareAndSet(k: Key, expected: Value, v: Value) returns (set': bool, r: Outcome, ghost gone: set<Key>)
      requires Valid()
      modifies this`vs, this`index, this`working, this`lost, tree
      ensures Valid()
      ensures old(Get(working, k)) != Some(expected) ==> !set' && r == Done
      ensures old(Get(working, k)) == Some(expected) ==>
        (set' <==> r == Done) && Follows(r, old(PutCheck(vs, index, done, cur, k, v)))
      ensures old(Get(working, k)) == Some(expected) && |k| <= MAX_KEY_SIZE ==>
        (r == Conflict <==> old(Stuck(vs, index, done, cur, k)))
      ensures old(Get(working, k)) == Some(expected) && !old(Stuck(vs, index, done, cur, k)) ==>
        |k| <= Sizes.MAX_KEY && Fits(k, v) && T.ShortAll(old(tree.pages)) ==> set' && r == Done
      ensures r == Done && set' ==> working == old(working)[k := v] && k in index && Free(vs, index[k], done, cur)
      ensures r == Done && set' ==> lost == More(committed, old(working), old(lost), k)
      ensures r == IndexRefused ==>
        || (working == old(working) - {k} && lost == old(lost))
        || (working == old(working)[k := v] - gone
            && lost == More(committed, old(working), old(lost), k) + gone * committed.Keys)
      ensures !set' && r != IndexRefused ==>
        vs == old(vs) && index == old(index) && working == old(working) && lost == old(lost)
      ensures StuckKept(old(vs), old(index), old(working), vs, index, working, done, cur)
      ensures T.ShortAll(old(tree.pages)) && |k| <= Sizes.MAX_KEY ==> r != IndexRefused && T.ShortAll(tree.pages)
    {
      hide KvOk, Lookup, Agrees, Free, IndexIs, Stuck, T.ShortAll;
      gone := {};
      var seen := GetKey(k);
      if seen == Some(expected) {
        if |k| <= MAX_KEY_SIZE {
          ConflictIff(vs, index, done, cur, committed, working, lost, k, v);
        }
        r, gone := Put(k, v);
        set' := r == Done;
      } else {
        KeptSame(vs, index, working, done, cur);
        return false, Done, gone;
      }
    }

    method Commit()
      requires Valid()
      modifies this`done, this`cur, this`committed, this`lost
      ensures Valid() && committed == old(working) && working == old(working) && lost == {}
      ensures done == old(done) + {old(cur)} && cur == old(cur) + 1
      ensures forall k :: Stuck(vs, index, done, cur, k) <==> old(Stuck(vs, index, done, cur, k))
    {
      hide KvOk, Stuck, VersionsOk, IndexIs;
      VersionsKnown(vs, index, done, cur, committed, working, lost);
      StuckPastCommit(vs, index, done, cur);
      CommitOk(vs, index, done, cur, committed, working, lost);
      done, cur := done + {cur}, cur + 1;
      committed, lost := working, {};
    }

    /** The index is not rolled back: what the next transaction sees is the committed map less the lost keys. */
    method Abort()
      requires Valid()
      modifies this`cur, this`committed, this`working, this`lost
      ensures Valid() && committed == working == old(committed) - old(lost) && lost == {}
      ensures vs == old(vs) && index == old(index) && done == old(done)
      ensures committed == old(committed) <==> old(lost) == {}
      ensures old(lost) <= old(committed).Keys
      ensures cur == old(cur) + 1
      ensures forall k :: Stuck(vs, index, done, cur, k) <==>
        old(Stuck(vs, index, done, cur, k)) || (k in index && Touched(vs, index[k], old(cur)))
    {
      hide KvOk, Agrees, Lookup, IndexIs, Stuck, VersionsOk, Touched;
      VersionsKnown(vs, index, done, cur, committed, working, lost);
      StuckByAbortIff(vs, index, done, cur);
      AbortIff(vs, index, done, cur, committed, working, lost);
      assert committed - lost == committed <==> lost == {} by { LessNothing(committed, lost); }
      cur, committed, lost := cur + 1, committed - lost, {};
      working := committed;
    }
  }

  lemma LessNothing(m: map<Key, Value>, lost: set<Key>)
    requires lost <= m.Keys
    ensures m - lost == m <==> lost == {}
  {
    if m - lost == m { assert forall k :: k in lost ==> k in m - lost; }
  }

  lemma NothingFound()
    ensures IndexIs(map[], [])
  {
  }

  lemma UpsertedIndex(index: Index, es: seq<E.Entry>, k: Key, n: nat)
    requires IndexIs(index, es)
    ensures IndexIs(index[k := n], E.Upsert(es, k, RidOf(n)))
  {
    forall k'
      ensures E.Find(E.Upsert(es, k, RidOf(n)), k') ==
        if k' in index[k := n] then Some(RidOf(index[k := n][k'])) else None
    {
      E.UpsertIs(es, k, RidOf(n), k');
    }
    E.UpsertIs(es, k, RidOf(n), k);
  }

  lemma InIndex(vs: seq<Version>, index: Index, done: set<TxnId>, cur: TxnId, committed: map<Key, Value>,
                working: map<Key, Value>, lost: set<Key>, k: Key)
    requires KvOk(vs, index, done, cur, committed, working, lost)
    ensures Lookup(vs, index, k, done + {cur}) == Get(working, k)
    ensures Get(working, k).Some? ==> k in index && index[k] < |vs|
  {
    assert Lookup(vs, index, k, done + {cur}) == Get(working, k);
  }

  lemma NewestFree(vs: seq<Version>, done: set<TxnId>, cur: TxnId)
    requires vs != [] && vs[|vs| - 1].xmin == cur && vs[|vs| - 1].xmax == NO_TXN
    ensures Free(vs, |vs| - 1, done, cur)
  {
  }

  lemma FreeBound(vs: seq<Version>, i: nat, done: set<TxnId>, cur: TxnId)
    requires Free(vs, i, done, cur)
    ensures i < |vs|
  {
  }

  /** A committed value can disappear: delete the key, put it back, abort. */
  method LostByAbort(k: Key, v: Value, w: Value, order: nat, root: nat)
    returns (found: Option<Value>, ghost was: Option<Value>)
    requires |k| <= Sizes.MAX_KEY && Fits(k, v) && Fits(k, w)
    ensures was == Some(v) && found == None
  {
    hide KvOk, Agrees, Lookup, IndexIs, Stuck, StuckKept, Free;
    var kv := PutOnce(k, v, order, root);
    was := Get(kv.committed, k);
    UnstuckFree(kv.vs, kv.index, kv.done, kv.cur, kv.committed, kv.working, kv.lost, k);
    var d := kv.Delete(k);
    Unbound(kv.vs, kv.index, kv.done, kv.cur, kv.committed, kv.working, kv.lost, k, w);
    ghost var gone;
    var r;
    r, gone := kv.Put(k, w);
    kv.Abort();
    found := kv.GetKey(k);
  }

  /** A namespace in which `k` was put and committed. */
  method PutOnce(k: Key, v: Value, order: nat, root: nat) returns (kv: KvNamespace)
    requires |k| <= Sizes.MAX_KEY && Fits(k, v)
    ensures fresh(kv) && fresh(kv.tree) && kv.Valid() && T.ShortAll(kv.tree.pages)
    ensures Get(kv.working, k) == Some(v) && kv.working == kv.committed && kv.lost == {}
    ensures !Stuck(kv.vs, kv.index, kv.done, kv.cur, k)
  {
    hide KvOk, Agrees, Lookup, IndexIs, Stuck, StuckKept, Free;
    kv := new KvNamespace(order, root);
    Unbound(kv.vs, kv.index, kv.done, kv.cur, kv.committed, kv.working, kv.lost, k, v);
    ghost var gone;
    var r;
    r, gone := kv.Put(k, v);
    FreeNotStuck(kv.vs, kv.index, kv.done, kv.cur, k);
    kv.Commit();
  }

  /** A namespace in which `k` was put and committed, then put again and aborted. */
  method PutTwice(k: Key, v: Value, w: Value, order: nat, root: nat) returns (kv: KvNamespace)
    requires |k| <= Sizes.MAX_KEY && Fits(k, v) && Fits(k, w)
    ensures fresh(kv) && fresh(kv.tree) && kv.Valid() && Get(kv.working, k) == Some(v)
    ensures Stuck(kv.vs, kv.index, kv.done, kv.cur, k) && kv.working == kv.committed && kv.lost == {}
  {
    hide KvOk, Agrees, Lookup, IndexIs, Stuck, StuckKept, Free;
    kv := PutOnce(k, v, order, root);
    ConflictIff(kv.vs, kv.index, kv.done, kv.cur, kv.committed, kv.working, kv.lost, k, w);
    ghost var gone;
    var r;
    r, gone := kv.Put(k, w);
    kv.Abort();
  }

  /** One more transaction that tries to put the key, and ends. */
  method TryPut(kv: KvNamespace, k: Key, v: Value, commit: bool) returns (r: Outcome)
    requires kv.Valid() && kv.working == kv.committed && kv.lost == {} && k in kv.working && |k| <= MAX_KEY_SIZE
    requires Stuck(kv.vs, kv.index, kv.done, kv.cur, k)
    modifies kv, kv.tree
    ensures kv.Valid() && kv.working == kv.committed == old(kv.working) && kv.lost == {} && r == Conflict
    ensures Stuck(kv.vs, kv.index, kv.done, kv.cur, k)
  {
    hide KvOk, Agrees, Lookup, IndexIs, Stuck, StuckKept, Free;
    ConflictIff(kv.vs, kv.index, kv.done, kv.cur, kv.committed, kv.working, kv.lost, k, v);
    ghost var gone;
    r, gone := kv.Put(k, v);
    if commit { kv.Commit(); } else { kv.Abort(); }
  }

  /**
   * A key updated by a transaction that aborts can never be written again: whatever is tried later, by however many
   * transactions, reports a conflict, while the committed value goes on being read.
   */
  method StuckByAbort(k: Key, v: Value, w: Value, later: seq<(Value, bool)>, order: nat, root: nat)
    returns (found: Option<Value>, outcomes: seq<Outcome>)
    requires |k| <= Sizes.MAX_KEY && Fits(k, v) && Fits(k, w)
    ensures found == Some(v) && |outcomes| == |later| && forall i :: 0 <= i < |later| ==> outcomes[i] == Conflict
  {
    hide KvOk, Agrees, Lookup, IndexIs, Stuck;
    var kv := PutTwice(k, v, w, order, root);
    outcomes := [];
    for i := 0 to |later|
      invariant kv.Valid() && fresh(kv) && fresh(kv.tree) && kv.working == kv.committed && kv.lost == {}
      invariant Stuck(kv.vs, kv.index, kv.done, kv.cur, k) && Get(kv.working, k) == Some(v)
      invariant |outcomes| == i && forall j :: 0 <= j < i ==> outcomes[j] == Conflict
    {
      var r := TryPut(kv, k, later[i].0, later[i].1);
      outcomes := outcomes + [r];
    }
    found := kv.GetKey(k);
  }

  lemma Unbound(vs: seq<Version>, index: Index, done: set<TxnId>, cur: TxnId, committed: map<Key, Value>,
                working: map<Key, Value>, lost: set<Key>, k: Key, v: Value)
    requires KvOk(vs, index, done, cur, committed, working, lost) && k !in working
    ensures PutCheck(vs, index, done, cur, k, v) != Conflict
  {
    InIndex(vs, index, done, cur, committed, working, lost, k);
  }

  lemma UnstuckFree(vs: seq<Version>, index: Index, done: set<TxnId>, cur: TxnId, committed: map<Key, Value>,
                    working: map<Key, Value>, lost: set<Key>, k: Key)
    requires KvOk(vs, index, done, cur, committed, working, lost) && k in working && |k| <= MAX_KEY_SIZE
    requires !Stuck(vs, index, done, cur, k)
    ensures k in index && Free(vs, index[k], done, cur)
  {
    hide Stuck, Free;
    InIndex(vs, index, done, cur, committed, working, lost, k);
    ConflictIff(vs, index, done, cur, committed, working, lost, k, []);
  }

  lemma FreeNotStuck(vs: seq<Version>, index: Index, done: set<TxnId>, cur: TxnId, k: Key)
    requires k in index && Free(vs, index[k], done, cur)
    ensures !Stuck(vs, index, done, cur, k)
  {
  }
}
