/** Byte-string keys in byte-wise order, and sorted entry lists as ordered maps. */
module Entries {
  import opened Bytes
  import opened Options
  import opened RecordHeader
  import opened Seqs

  type Key = seq<byte>

  datatype Entry = Entry(key: Key, rid: RecordId)

  // ----- Byte-wise order -----

  predicate Lt(a: Key, b: Key) {
    if b == [] then false
    else if a == [] then true
    else if a[0] != b[0] then a[0] < b[0]
    else Lt(a[1..], b[1..])
  }

  predicate Le(a: Key, b: Key) { !Lt(b, a) }

  lemma {:induction false} LtTrichotomy(a: Key, b: Key)
    ensures Lt(a, b) || a == b || Lt(b, a)
    ensures !(Lt(a, b) && Lt(b, a)) && !(Lt(a, b) && a == b)
  {
    if a != [] && b != [] && a[0] == b[0] {
      LtTrichotomy(a[1..], b[1..]);
      assert a == [a[0]] + a[1..] && b == [b[0]] + b[1..];
    }
  }

  lemma {:induction false} LtTransitive(a: Key, b: Key, c: Key)
    requires Lt(a, b) && Lt(b, c)
    ensures Lt(a, c)
  {
    if a != [] && a[0] == b[0] == c[0] {
      LtTransitive(a[1..], b[1..], c[1..]);
    }
  }

  lemma LeLt(a: Key, b: Key, c: Key)
    requires Le(a, b) && Lt(b, c)
    ensures Lt(a, c)
  {
    LtTrichotomy(a, b);
    if a != b { LtTransitive(a, b, c); }
  }

  lemma LtLe(a: Key, b: Key, c: Key)
    requires Lt(a, b) && Le(b, c)
    ensures Lt(a, c)
  {
    LtTrichotomy(b, c);
    if b != c { LtTransitive(a, b, c); }
  }

  // ----- Ranges -----

  /** A bound on one side; `None` is unbounded. */
  type Bound = Option<Key>

  predicate Above(lo: Bound, k: Key) { lo.Some? ==> Le(lo.value, k) }

  predicate Below(k: Key, hi: Bound) { hi.Some? ==> Lt(k, hi.value) }

  ghost predicate Sorted(es: seq<Entry>) {
    forall i, j :: 0 <= i < j < |es| ==> Lt(es[i].key, es[j].key)
  }

  ghost predicate Within(es: seq<Entry>, lo: Bound, hi: Bound) {
    Sorted(es) && forall i :: 0 <= i < |es| ==> Above(lo, es[i].key) && Below(es[i].key, hi)
  }

  ghost predicate AllBelow(es: seq<Entry>, key: Key) {
    forall i :: 0 <= i < |es| ==> Lt(es[i].key, key)
  }

  ghost predicate AllAbove(es: seq<Entry>, key: Key) {
    forall i :: 0 <= i < |es| ==> Lt(key, es[i].key)
  }

  lemma WithinBelow(es: seq<Entry>, lo: Bound, m: Key, key: Key)
    requires Within(es, lo, Some(m)) && Le(m, key)
    ensures AllBelow(es, key)
  {
    forall i | 0 <= i < |es| ensures Lt(es[i].key, key) {
      LtLe(es[i].key, m, key);
    }
  }

  lemma WithinAbove(es: seq<Entry>, m: Key, hi: Bound, key: Key)
    requires Within(es, Some(m), hi) && Lt(key, m)
    ensures AllAbove(es, key)
  {
    forall i | 0 <= i < |es| ensures Lt(key, es[i].key) {
      LtLe(key, m, es[i].key);
    }
  }

  lemma Join(a: seq<Entry>, b: seq<Entry>, lo: Bound, m: Key, hi: Bound)
    requires Within(a, lo, Some(m)) && Within(b, Some(m), hi) && Above(lo, m) && (hi.Some? ==> Le(m, hi.value))
    ensures Within(a + b, lo, hi)
  {
    var ab := a + b;
    forall i, j | 0 <= i < j < |ab| ensures Lt(ab[i].key, ab[j].key) {
      if i < |a| <= j { LtLe(a[i].key, m, b[j - |a|].key); }
    }
    forall i | 0 <= i < |ab| ensures Above(lo, ab[i].key) && Below(ab[i].key, hi) {
      if i < |a| {
        if hi.Some? { LtLe(a[i].key, m, hi.value); }
      } else if lo.Some? {
        LtTrichotomy(lo.value, m);
        LtTrichotomy(lo.value, b[i - |a|].key);
        LtTrichotomy(m, b[i - |a|].key);
        if Lt(b[i - |a|].key, lo.value) {
          LtLe(b[i - |a|].key, lo.value, m);
        }
      }
    }
  }

  // ----- Operations on a sorted list -----

  /** `partition_point(|e| e.key < key)`. */
  function Pos(es: seq<Entry>, key: Key): (p: nat)
    ensures p <= |es|
    ensures forall i :: 0 <= i < p ==> Lt(es[i].key, key)
    ensures p < |es| ==> !Lt(es[p].key, key)
  {
    if es == [] || !Lt(es[0].key, key) then 0 else 1 + Pos(es[1..], key)
  }

  predicate Hit(es: seq<Entry>, key: Key) { Pos(es, key) < |es| && es[Pos(es, key)].key == key }

  function Find(es: seq<Entry>, key: Key): Option<RecordId> {
    if Hit(es, key) then Some(es[Pos(es, key)].rid) else None
  }

  function Upsert(es: seq<Entry>, key: Key, rid: RecordId): seq<Entry> {
    var p := Pos(es, key);
    if Hit(es, key) then es[p := Entry(key, rid)] else es[..p] + [Entry(key, rid)] + es[p..]
  }

  function Remove(es: seq<Entry>, key: Key): seq<Entry> {
    var p := Pos(es, key);
    if Hit(es, key) then es[..p] + es[p + 1..] else es
  }

  /** The entries with `start <= key < end`. */
  function Slice(es: seq<Entry>, start: Key, end: Key): seq<Entry> {
    if es == [] then []
    else
      var n := |es| - 1;
      Slice(es[..n], start, end) + if Le(start, es[n].key) && Lt(es[n].key, end) then [es[n]] else []
  }

  lemma PosIs(es: seq<Entry>, key: Key, p: nat)
    requires p <= |es| && (forall i :: 0 <= i < p ==> Lt(es[i].key, key)) && (p < |es| ==> !Lt(es[p].key, key))
    ensures Pos(es, key) == p
  {
    var q := Pos(es, key);
  }

  lemma MiddlePos(a: seq<Entry>, b: seq<Entry>, c: seq<Entry>, key: Key)
    requires AllBelow(a, key) && AllAbove(c, key)
    ensures Pos(a + b + c, key) == |a| + Pos(b, key) && (Hit(a + b + c, key) <==> Hit(b, key))
  {
    var es := a + b + c;
    var p := |a| + Pos(b, key);
    forall i | 0 <= i < p ensures Lt(es[i].key, key) {
    }
    if p < |es| && p >= |a| + |b| { LtTrichotomy(es[p].key, key); }
    hide Lt;
    PosIs(es, key, p);
  }

  /** In a list whose front is below the key and whose back is above it, only the middle matters. */
  lemma Middle(a: seq<Entry>, b: seq<Entry>, c: seq<Entry>, key: Key, rid: RecordId)
    requires AllBelow(a, key) && AllAbove(c, key)
    ensures Find(a + b + c, key) == Find(b, key)
    ensures Upsert(a + b + c, key, rid) == a + Upsert(b, key, rid) + c
    ensures Remove(a + b + c, key) == a + Remove(b, key) + c
  {
    hide Lt, Pos, Hit;
    MiddlePos(a, b, c, key);
    var es, q := a + b + c, Pos(b, key);
    HitBound(b, key);
    if Hit(b, key) {
      SpliceOne(a, b, c, q, Entry(key, rid));
    } else {
      SpliceIn(a, b, c, q, Entry(key, rid));
    }
  }

  lemma HitBound(es: seq<Entry>, key: Key)
    ensures Hit(es, key) ==> Pos(es, key) < |es| && es[Pos(es, key)].key == key
  {
  }

  lemma UpsertWithin(es: seq<Entry>, key: Key, rid: RecordId, lo: Bound, hi: Bound)
    requires Within(es, lo, hi) && Above(lo, key) && Below(key, hi)
    ensures Within(Upsert(es, key, rid), lo, hi)
    ensures |Upsert(es, key, rid)| == |es| + if Hit(es, key) then 0 else 1
  {
    var p, us := Pos(es, key), Upsert(es, key, rid);
    if p < |es| { LtTrichotomy(es[p].key, key); }
    if !Hit(es, key) {
      assert forall i :: 0 <= i < p ==> us[i] == es[i];
      assert us[p] == Entry(key, rid) && forall i :: p < i < |us| ==> us[i] == es[i - 1];
      forall i | p < i < |us| ensures Lt(key, us[i].key) {
        if i - 1 > p { LtTransitive(key, es[p].key, es[i - 1].key); }
      }
    }
  }

  lemma RemoveWithin(es: seq<Entry>, key: Key, lo: Bound, hi: Bound)
    requires Within(es, lo, hi)
    ensures Within(Remove(es, key), lo, hi)
  {
  }

  // ----- The map a sorted list stands for -----

  ghost predicate Has(es: seq<Entry>, key: Key, rid: RecordId) {
    Entry(key, rid) in es
  }

  /** `Find` is lookup, and a key has at most one entry. */
  lemma FindIs(es: seq<Entry>, key: Key)
    requires Sorted(es)
    ensures forall rid :: Has(es, key, rid) <==> Find(es, key) == Some(rid)
  {
    var p := Pos(es, key);
    forall rid | Has(es, key, rid) ensures Find(es, key) == Some(rid) {
      var i :| 0 <= i < |es| && es[i] == Entry(key, rid);
      LtTrichotomy(key, key);
      if p < |es| { LtTrichotomy(es[p].key, key); }
    }
  }

  lemma UpsertIs(es: seq<Entry>, key: Key, rid: RecordId, k: Key)
    requires Sorted(es)
    ensures Sorted(Upsert(es, key, rid))
    ensures Find(Upsert(es, key, rid), k) == if k == key then Some(rid) else Find(es, k)
  {
    var us, p := Upsert(es, key, rid), Pos(es, key);
    UpsertWithin(es, key, rid, None, None);
    FindIs(es, k);
    FindIs(us, k);
    assert us[p] == Entry(key, rid);
    forall r | k != key ensures Has(us, k, r) <==> Has(es, k, r) {
      if Has(es, k, r) {
        var i :| 0 <= i < |es| && es[i] == Entry(k, r);
        assert us[if Hit(es, key) || i < p then i else i + 1] == es[i];
      }
    }
    assert Has(us, key, rid);
    if k != key && Find(us, k).Some? { assert Has(us, k, Find(us, k).value); }
    if k != key && Find(es, k).Some? { assert Has(es, k, Find(es, k).value); }
  }

  lemma RemoveHas(es: seq<Entry>, key: Key, e: Entry)
    requires Sorted(es)
    ensures e in Remove(es, key) <==> e in es && e.key != key
  {
    var rs, p := Remove(es, key), Pos(es, key);
    FindIs(es, key);
    if Hit(es, key) {
      assert es == es[..p] + [es[p]] + es[p + 1..];
      forall i | 0 <= i < |es| && i != p ensures es[i].key != key {
        LtTrichotomy(es[p].key, es[i].key);
      }
    } else {
      assert e in es && e.key == key ==> Has(es, key, e.rid);
    }
    hide Lt, Pos;
  }

  lemma RemoveIs(es: seq<Entry>, key: Key, k: Key)
    requires Sorted(es)
    ensures Sorted(Remove(es, key))
    ensures Find(Remove(es, key), k) == if k == key then None else Find(es, k)
  {
    var rs := Remove(es, key);
    RemoveWithin(es, key, None, None);
    FindIs(es, k);
    FindIs(rs, k);
    hide Lt, Remove, Find, Sorted;
    forall r ensures Has(rs, k, r) <==> k != key && Has(es, k, r) {
      RemoveHas(es, key, Entry(k, r));
    }
    assert Find(rs, k).Some? ==> Has(rs, k, Find(rs, k).value);
    assert Find(es, k).Some? ==> Has(es, k, Find(es, k).value);
  }

  lemma {:induction false} SliceIs(es: seq<Entry>, start: Key, end: Key)
    requires Sorted(es)
    ensures Sorted(Slice(es, start, end))
    ensures forall e :: e in Slice(es, start, end) <==> e in es && Le(start, e.key) && Lt(e.key, end)
  {
    if es != [] {
      var n := |es| - 1;
      SliceIs(es[..n], start, end);
      assert es == es[..n] + [es[n]];
      var front := Slice(es[..n], start, end);
      forall i | 0 <= i < |front| ensures Lt(front[i].key, es[n].key) {
        assert front[i] in es[..n];
      }
    }
  }

  lemma {:induction false} SliceApp(a: seq<Entry>, b: seq<Entry>, start: Key, end: Key)
    ensures Slice(a + b, start, end) == Slice(a, start, end) + Slice(b, start, end)
  {
    if b == [] {
      assert a + b == a;
    } else {
      var n := |b| - 1;
      SliceApp(a, b[..n], start, end);
      assert (a + b)[..|a| + n] == a + b[..n];
    }
  }

  lemma {:induction false} SliceNone(es: seq<Entry>, start: Key, end: Key)
    requires forall i :: 0 <= i < |es| ==> Lt(es[i].key, start) || Le(end, es[i].key)
    ensures Slice(es, start, end) == []
  {
    if es != [] {
      SliceNone(es[..|es| - 1], start, end);
    }
  }
}
