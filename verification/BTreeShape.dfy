/** The shape of a B+tree: separators that bound every subtree, and the entries it holds in key order. */
module BTreeShape {
  import opened Options
  import opened Entries
  import opened Seqs
  import opened RecordHeader

  type PageId = nat

  /** A subtree and the pages its nodes live on. */
  datatype Tree =
    | LeafT(page: PageId, entries: seq<Entry>)
    | NodeT(page: PageId, keys: seq<Key>, kids: seq<Tree>)

  // ----- Order -----

  /** Separators strictly increase, strictly inside the bounds. */
  ghost predicate KeysOk(keys: seq<Key>, lo: Bound, hi: Bound) {
    && (forall i, j :: 0 <= i < j < |keys| ==> Lt(keys[i], keys[j]))
    && (forall i :: 0 <= i < |keys| ==> (lo.Some? ==> Lt(lo.value, keys[i])) && Below(keys[i], hi))
  }

  function LoOf(keys: seq<Key>, lo: Bound, i: nat): Bound
    requires i <= |keys|
  {
    if i == 0 then lo else Some(keys[i - 1])
  }

  function HiOf(keys: seq<Key>, hi: Bound, i: nat): Bound
    requires i <= |keys|
  {
    if i == |keys| then hi else Some(keys[i])
  }

  /** All leaves at one depth, every entry between the separators around it. */
  ghost predicate TreeOk(t: Tree, h: nat, lo: Bound, hi: Bound)
    decreases h
  {
    match t
    case LeafT(_, es) => h == 0 && Within(es, lo, hi)
    case NodeT(_, keys, kids) =>
      && h > 0 && |kids| == |keys| + 1 && KeysOk(keys, lo, hi)
      && forall i :: 0 <= i < |kids| ==> TreeOk(kids[i], h - 1, LoOf(keys, lo, i), HiOf(keys, hi, i))
  }

  /** The entries of a subtree, left to right. */
  ghost function Flatten(t: Tree): seq<Entry>
    decreases t, 0
  {
    match t
    case LeafT(_, es) => es
    case NodeT(_, _, kids) => Flats(kids)
  }

  ghost function Flats(ts: seq<Tree>): seq<Entry>
    decreases ts, |ts|
  {
    if ts == [] then [] else Flats(ts[..|ts| - 1]) + Flatten(ts[|ts| - 1])
  }

  lemma {:induction false} FlatsApp(a: seq<Tree>, b: seq<Tree>)
    ensures Flats(a + b) == Flats(a) + Flats(b)
  {
    if b == [] {
      assert a + b == a;
    } else {
      var n := |b| - 1;
      FlatsApp(a, b[..n]);
      FlatsLast(a + b[..n], b[n]);
      FlatsLast(b[..n], b[n]);
      SplitLast(a, b);
      SeqAssoc(Flats(a), Flats(b[..n]), Flatten(b[n]));
      hide *;
    }
  }

  lemma CutLeft(t: Tree, h: nat, lo: Bound, hi: Bound, m: nat, p: PageId)
    requires t.NodeT? && TreeOk(t, h, lo, hi) && m < |t.keys|
    ensures TreeOk(NodeT(p, t.keys[..m], t.kids[..m + 1]), h, lo, Some(t.keys[m]))
  {
    hide Lt;
    var l := t.keys[..m];
    forall i | 0 <= i <= m ensures TreeOk(t.kids[..m + 1][i], h - 1, LoOf(l, lo, i), HiOf(l, Some(t.keys[m]), i)) {
      assert TreeOk(t.kids[i], h - 1, LoOf(t.keys, lo, i), HiOf(t.keys, hi, i));
    }
  }

  lemma CutRight(t: Tree, h: nat, lo: Bound, hi: Bound, m: nat, q: PageId)
    requires t.NodeT? && TreeOk(t, h, lo, hi) && m < |t.keys|
    ensures TreeOk(NodeT(q, t.keys[m + 1..], t.kids[m + 1..]), h, Some(t.keys[m]), hi)
  {
    hide Lt;
    var r := t.keys[m + 1..];
    forall i | 0 <= i < |t.kids[m + 1..]|
      ensures TreeOk(t.kids[m + 1..][i], h - 1, LoOf(r, Some(t.keys[m]), i), HiOf(r, hi, i))
    {
      assert TreeOk(t.kids[m + 1 + i], h - 1, LoOf(t.keys, lo, m + 1 + i), HiOf(t.keys, hi, m + 1 + i));
    }
  }

  /** Cutting a node at separator `m`, which belongs to neither half. */
  lemma CutOk(t: Tree, h: nat, lo: Bound, hi: Bound, m: nat, p: PageId, q: PageId)
    requires t.NodeT? && TreeOk(t, h, lo, hi) && m < |t.keys|
    ensures m < |t.kids|
    ensures TreeOk(NodeT(p, t.keys[..m], t.kids[..m + 1]), h, lo, Some(t.keys[m]))
    ensures TreeOk(NodeT(q, t.keys[m + 1..], t.kids[m + 1..]), h, Some(t.keys[m]), hi)
    ensures Flatten(t) == Flats(t.kids[..m + 1]) + Flats(t.kids[m + 1..])
  {
    CutLeft(t, h, lo, hi, m, p);
    CutRight(t, h, lo, hi, m, q);
    assert t.kids == t.kids[..m + 1] + t.kids[m + 1..];
    FlatsApp(t.kids[..m + 1], t.kids[m + 1..]);
  }

  /** A well-shaped tree lists its entries in strictly increasing key order, within its bounds. */
  lemma {:induction false} FlattenWithin(t: Tree, h: nat, lo: Bound, hi: Bound)
    requires TreeOk(t, h, lo, hi)
    ensures Within(Flatten(t), lo, hi)
    decreases h, if t.NodeT? then |t.keys| else 0
  {
    if t.NodeT? {
      if t.keys == [] {
        FlattenWithin(t.kids[0], h - 1, lo, hi);
        assert t.kids[..0] == [] && Flats(t.kids) == Flats([]) + Flatten(t.kids[0]);
      } else {
        var m := |t.keys| - 1;
        CutOk(t, h, lo, hi, m, 0, 0);
        FlattenWithin(NodeT(0, t.keys[..m], t.kids[..m + 1]), h, lo, Some(t.keys[m]));
        FlattenWithin(NodeT(0, t.keys[m + 1..], t.kids[m + 1..]), h, Some(t.keys[m]), hi);
        BoundLe(t.keys[m], lo, hi);
        Join(Flats(t.kids[..m + 1]), Flats(t.kids[m + 1..]), lo, t.keys[m], hi);
      }
    }
  }

  lemma BoundLe(k: Key, lo: Bound, hi: Bound)
    requires (lo.Some? ==> Lt(lo.value, k)) && Below(k, hi)
    ensures Above(lo, k) && (hi.Some? ==> Le(k, hi.value))
  {
    if lo.Some? { LtTrichotomy(lo.value, k); }
    if hi.Some? { LtTrichotomy(k, hi.value); }
  }

  // ----- Routing -----

  /** `partition_point(|k| k <= key)`: the child a search for `key` descends into. */
  function Route(keys: seq<Key>, key: Key): (i: nat)
    ensures i <= |keys|
    ensures forall j :: 0 <= j < i ==> Le(keys[j], key)
    ensures i < |keys| ==> Lt(key, keys[i])
  {
    if keys == [] || Lt(key, keys[0]) then 0 else 1 + Route(keys[1..], key)
  }

  /** `partition_point(|k| k < pivot)`: where a new separator goes. */
  function SepPos(keys: seq<Key>, pivot: Key): (i: nat)
    ensures i <= |keys|
    ensures forall j :: 0 <= j < i ==> Lt(keys[j], pivot)
    ensures i < |keys| ==> !Lt(keys[i], pivot)
  {
    if keys == [] || !Lt(keys[0], pivot) then 0 else 1 + SepPos(keys[1..], pivot)
  }

  lemma FlatsAround(kids: seq<Tree>, i: nat)
    requires i < |kids|
    ensures Flats(kids) == Flats(kids[..i]) + Flatten(kids[i]) + Flats(kids[i + 1..])
  {
    hide *;
    SplitAt(kids, i);
    FlatsApp(kids[..i] + [kids[i]], kids[i + 1..]);
    FlatsLast(kids[..i], kids[i]);
  }

  lemma FlatsLast(ts: seq<Tree>, t: Tree)
    ensures Flats(ts + [t]) == Flats(ts) + Flatten(t)
  {
    assert (ts + [t])[..|ts|] == ts;
  }

  lemma LeftOfRoute(t: Tree, h: nat, lo: Bound, hi: Bound, key: Key)
    requires t.NodeT? && TreeOk(t, h, lo, hi)
    ensures AllBelow(Flats(t.kids[..Route(t.keys, key)]), key)
  {
    var i := Route(t.keys, key);
    if i > 0 {
      var left := NodeT(0, t.keys[..i - 1], t.kids[..i]);
      CutOk(t, h, lo, hi, i - 1, 0, 0);
      FlattenWithin(left, h, lo, Some(t.keys[i - 1]));
      assert Flatten(left) == Flats(t.kids[..i]);
      hide Flats, Flatten, TreeOk;
      WithinBelow(Flats(t.kids[..i]), lo, t.keys[i - 1], key);
    } else {
      assert t.kids[..i] == [];
    }
  }

  lemma RightOfRoute(t: Tree, h: nat, lo: Bound, hi: Bound, key: Key)
    requires t.NodeT? && TreeOk(t, h, lo, hi)
    ensures AllAbove(Flats(t.kids[Route(t.keys, key) + 1..]), key)
  {
    var i := Route(t.keys, key);
    if i < |t.keys| {
      var right := NodeT(0, t.keys[i + 1..], t.kids[i + 1..]);
      CutOk(t, h, lo, hi, i, 0, 0);
      FlattenWithin(right, h, Some(t.keys[i]), hi);
      assert Flatten(right) == Flats(t.kids[i + 1..]);
      hide Flats, Flatten, TreeOk;
      WithinAbove(Flats(t.kids[i + 1..]), t.keys[i], hi, key);
    } else {
      assert t.kids[i + 1..] == [];
    }
  }

  /** What routing is for: everything left of the chosen child is below the key, everything right of it above. */
  lemma RouteIsolates(t: Tree, h: nat, lo: Bound, hi: Bound, key: Key)
    requires t.NodeT? && TreeOk(t, h, lo, hi) && Above(lo, key) && Below(key, hi)
    ensures var i := Route(t.keys, key);
      && Above(LoOf(t.keys, lo, i), key) && Below(key, HiOf(t.keys, hi, i))
      && AllBelow(Flats(t.kids[..i]), key) && AllAbove(Flats(t.kids[i + 1..]), key)
  {
    LeftOfRoute(t, h, lo, hi, key);
    RightOfRoute(t, h, lo, hi, key);
    hide AllBelow, AllAbove, Flats;
  }

  /** So the operations of the ordered list act on the chosen child alone. */
  lemma RouteOperates(t: Tree, h: nat, lo: Bound, hi: Bound, key: Key, rid: RecordId)
    requires t.NodeT? && TreeOk(t, h, lo, hi) && Above(lo, key) && Below(key, hi)
    ensures var i := Route(t.keys, key);
      var a, b, c := Flats(t.kids[..i]), Flatten(t.kids[i]), Flats(t.kids[i + 1..]);
      && Flatten(t) == a + b + c
      && Find(Flatten(t), key) == Find(b, key)
      && Upsert(Flatten(t), key, rid) == a + Upsert(b, key, rid) + c
      && Remove(Flatten(t), key) == a + Remove(b, key) + c
  {
    var i := Route(t.keys, key);
    assert i < |t.kids| && Flatten(t) == Flats(t.kids);
    RouteIsolates(t, h, lo, hi, key);
    FlatsAround(t.kids, i);
    hide *;
    Middle(Flats(t.kids[..i]), Flatten(t.kids[i]), Flats(t.kids[i + 1..]), key, rid);
  }

  // ----- Absorbing a split -----

  function WithKey(keys: seq<Key>, i: nat, pivot: Key): seq<Key>
    requires i <= |keys|
  {
    keys[..i] + [pivot] + keys[i..]
  }

  function WithKid<T>(kids: seq<T>, i: nat, l: T, r: T): seq<T>
    requires i < |kids|
  {
    kids[..i] + [l, r] + kids[i + 1..]
  }

  /** A pivot between its child's bounds goes where the child was: `insert_child` finds that place. */
  lemma PivotPlace(keys: seq<Key>, lo: Bound, hi: Bound, i: nat, pivot: Key)
    requires KeysOk(keys, lo, hi) && i <= |keys|
    requires KeysOk([pivot], LoOf(keys, lo, i), HiOf(keys, hi, i))
    ensures SepPos(keys, pivot) == i && KeysOk(WithKey(keys, i, pivot), lo, hi)
  {
    assert [pivot][0] == pivot;
    PivotBetween(keys, lo, hi, i, pivot);
    if i < |keys| { LtTrichotomy(keys[i], pivot); }
    hide Lt, SepPos;
    SepPosIs(keys, pivot, i);
    WithKeyOk(keys, lo, hi, i, pivot);
  }

  lemma WithKeyOk(keys: seq<Key>, lo: Bound, hi: Bound, i: nat, pivot: Key)
    requires KeysOk(keys, lo, hi) && i <= |keys|
    requires forall j :: 0 <= j < i ==> Lt(keys[j], pivot)
    requires forall j :: i <= j < |keys| ==> Lt(pivot, keys[j])
    requires (lo.Some? ==> Lt(lo.value, pivot)) && Below(pivot, hi)
    ensures KeysOk(WithKey(keys, i, pivot), lo, hi)
  {
    hide Lt;
    var ks := WithKey(keys, i, pivot);
    forall a, b | 0 <= a < b < |ks| ensures Lt(ks[a], ks[b]) {
      WithKeyPair(keys, i, pivot, a, b);
    }
    forall a | 0 <= a < |ks| ensures (lo.Some? ==> Lt(lo.value, ks[a])) && Below(ks[a], hi) {
      WithKeyAt(keys, i, pivot, a);
    }
    hide WithKey;
  }

  lemma WithKeyAt(keys: seq<Key>, i: nat, pivot: Key, a: nat)
    requires i <= |keys| && a <= |keys|
    ensures WithKey(keys, i, pivot)[a] == if a < i then keys[a] else if a == i then pivot else keys[a - 1]
  {
  }

  lemma WithKeyPair(keys: seq<Key>, i: nat, pivot: Key, a: nat, b: nat)
    requires i <= |keys| && a < b <= |keys|
    requires forall j, k :: 0 <= j < k < |keys| ==> Lt(keys[j], keys[k])
    requires forall j :: 0 <= j < i ==> Lt(keys[j], pivot)
    requires forall j :: i <= j < |keys| ==> Lt(pivot, keys[j])
    ensures Lt(WithKey(keys, i, pivot)[a], WithKey(keys, i, pivot)[b])
  {
    hide WithKey, Lt;
    WithKeyAt(keys, i, pivot, a);
    WithKeyAt(keys, i, pivot, b);
  }

  lemma SepPosIs(keys: seq<Key>, pivot: Key, i: nat)
    requires i <= |keys| && (forall j :: 0 <= j < i ==> Lt(keys[j], pivot)) && (i < |keys| ==> !Lt(keys[i], pivot))
    ensures SepPos(keys, pivot) == i
  {
    var p := SepPos(keys, pivot);
  }

  lemma PivotBetween(keys: seq<Key>, lo: Bound, hi: Bound, i: nat, pivot: Key)
    requires KeysOk(keys, lo, hi) && i <= |keys|
    requires (LoOf(keys, lo, i).Some? ==> Lt(LoOf(keys, lo, i).value, pivot)) && Below(pivot, HiOf(keys, hi, i))
    ensures forall j :: 0 <= j < i ==> Lt(keys[j], pivot)
    ensures forall j :: i <= j < |keys| ==> Lt(pivot, keys[j])
    ensures (lo.Some? ==> Lt(lo.value, pivot)) && Below(pivot, hi)
  {
    forall j | 0 <= j < i ensures Lt(keys[j], pivot) {
      if j < i - 1 { LtTransitive(keys[j], keys[i - 1], pivot); }
    }
    forall j | i <= j < |keys| ensures Lt(pivot, keys[j]) {
      if i < j { LtTransitive(pivot, keys[i], keys[j]); }
    }
    if i > 0 && lo.Some? { LtTransitive(lo.value, keys[i - 1], pivot); }
    if i < |keys| && hi.Some? { LtTransitive(pivot, keys[i], hi.value); }
  }

  lemma SplitKidOk(t: Tree, h: nat, lo: Bound, hi: Bound, i: nat, l: Tree, pivot: Key, r: Tree)
    requires t.NodeT? && TreeOk(t, h, lo, hi) && i < |t.kids|
    requires KeysOk([pivot], LoOf(t.keys, lo, i), HiOf(t.keys, hi, i))
    requires TreeOk(l, h - 1, LoOf(t.keys, lo, i), Some(pivot)) && TreeOk(r, h - 1, Some(pivot), HiOf(t.keys, hi, i))
    ensures TreeOk(NodeT(t.page, WithKey(t.keys, i, pivot), WithKid(t.kids, i, l, r)), h, lo, hi)
    ensures Flats(WithKid(t.kids, i, l, r)) == Flats(t.kids[..i]) + (Flatten(l) + Flatten(r)) + Flats(t.kids[i + 1..])
  {
    PivotPlace(t.keys, lo, hi, i, pivot);
    SplitKidFlats(t.kids, i, l, r);
    var keys, kids := WithKey(t.keys, i, pivot), WithKid(t.kids, i, l, r);
    forall j | 0 <= j < |kids| ensures TreeOk(kids[j], h - 1, LoOf(keys, lo, j), HiOf(keys, hi, j)) {
      SplitKidEach(t, h, lo, hi, i, l, pivot, r, j);
    }
    hide KeysOk, WithKey, Flats, Flatten, Lt;
  }

  lemma SplitKidEach(t: Tree, h: nat, lo: Bound, hi: Bound, i: nat, l: Tree, pivot: Key, r: Tree, j: nat)
    requires t.NodeT? && TreeOk(t, h, lo, hi) && i < |t.kids| && j <= |t.kids|
    requires TreeOk(l, h - 1, LoOf(t.keys, lo, i), Some(pivot)) && TreeOk(r, h - 1, Some(pivot), HiOf(t.keys, hi, i))
    ensures var keys := WithKey(t.keys, i, pivot);
      TreeOk(WithKid(t.kids, i, l, r)[j], h - 1, LoOf(keys, lo, j), HiOf(keys, hi, j))
  {
    var k := if j <= i then j else j - 1;
    assert TreeOk(t.kids[k], h - 1, LoOf(t.keys, lo, k), HiOf(t.keys, hi, k));
    hide KeysOk, TreeOk;
  }

  lemma SplitKidFlats(kids: seq<Tree>, i: nat, l: Tree, r: Tree)
    requires i < |kids|
    ensures Flats(WithKid(kids, i, l, r)) == Flats(kids[..i]) + (Flatten(l) + Flatten(r)) + Flats(kids[i + 1..])
  {
    hide Flats, Flatten;
    FlatsApp(kids[..i] + [l, r], kids[i + 1..]);
    assert kids[..i] + [l, r] == kids[..i] + [l] + [r];
    FlatsLast(kids[..i] + [l], r);
    FlatsLast(kids[..i], l);
  }

  lemma SameKidOk(t: Tree, h: nat, lo: Bound, hi: Bound, i: nat, kid: Tree)
    requires t.NodeT? && TreeOk(t, h, lo, hi) && i < |t.kids|
    requires TreeOk(kid, h - 1, LoOf(t.keys, lo, i), HiOf(t.keys, hi, i))
    ensures TreeOk(t.(kids := t.kids[i := kid]), h, lo, hi)
    ensures Flats(t.kids[i := kid]) == Flats(t.kids[..i]) + Flatten(kid) + Flats(t.kids[i + 1..])
  {
    FlatsAround(t.kids[i := kid], i);
    assert t.kids[i := kid][..i] == t.kids[..i] && t.kids[i := kid][i + 1..] == t.kids[i + 1..];
  }
}
