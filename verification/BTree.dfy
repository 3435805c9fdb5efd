/** The B+tree: an ordered map from byte-string keys to record ids, kept on pages, with a root that never moves. */
module BTree {
  import opened Options
  import opened Entries
  import opened Seqs
  import opened RecordHeader
  import opened BTreeShape
  import opened BTreePages
  import opened BTreeList
  import opened BTreeSize

  // ----- What an insert leaves of a subtree -----

  /** The subtree `t` after an upsert: one subtree `l`, or two, `l` and `r`, around a new separator. */
  ghost predicate Inserted(t: Tree, h: nat, lo: Bound, hi: Bound, next: Link, pages: Pages,
                           split: Option<(Key, PageId)>, l: Tree, r: Tree, entries: seq<Entry>, n0: nat, n1: nat) {
    match split
    case None =>
      Good(l, h, pages, lo, hi, next) && Renewed(l, t, n0, n1) && Flatten(l) == entries
    case Some((pivot, page)) =>
      && Good(l, h, pages, lo, Some(pivot), Then(next, FirstLeaf(r))) && Good(r, h, pages, Some(pivot), hi, next)
      && KeysOk([pivot], lo, hi) && RenewedPair(l, r, t, n0, n1)
      && r.page == page && n0 <= page < n1 && Flatten(l) + Flatten(r) == entries
  }

  lemma NodeFacts(t: Tree, h: nat, lo: Bound, hi: Bound)
    requires t.NodeT? && TreeOk(t, h, lo, hi)
    ensures h > 0 && |t.kids| == |t.keys| + 1 && KeysOk(t.keys, lo, hi)
    ensures Flatten(t) == Flats(t.kids) && FirstLeaf(t) == FirstLeaf(t.kids[0])
  {
  }

  lemma LeafKept(t: Tree, lo: Bound, hi: Bound, next: Link, pages: Pages, key: Key, rid: RecordId, n0: nat, n1: nat)
    requires t.LeafT? && Good(t, 0, pages, lo, hi, next) && Above(lo, key) && Below(key, hi)
    ensures var us := Upsert(t.entries, key, rid);
      && t.page in pages && pages[t.page].Leaf?
      && Inserted(t, 0, lo, hi, next, pages[t.page := Leaf(pages[t.page].right, us)], None, LeafT(t.page, us), t, us,
           n0, n1)
  {
    UpsertWithin(t.entries, key, rid, lo, hi);
  }

  lemma LeafSplit(t: Tree, lo: Bound, hi: Bound, next: Link, pages: Pages, us: seq<Entry>, m: nat, q: PageId, n0: nat,
                  n1: nat)
    requires t.LeafT? && AllUnder(Owned(t), n0) && n0 <= q < n1
    requires Within(us, lo, hi) && 0 < m < |us|
    requires t.page in pages && pages[t.page].Leaf? && (next.To? ==> pages[t.page].right == next.leaf)
    ensures Inserted(t, 0, lo, hi, next,
                     pages[q := Leaf(pages[t.page].right, us[m..])][t.page := Leaf(Some(q), us[..m])],
                     Some((us[m].key, q)), LeafT(t.page, us[..m]), LeafT(q, us[m..]), us, n0, n1)
  {
    var l, r, pivot := LeafT(t.page, us[..m]), LeafT(q, us[m..]), us[m].key;
    assert t.page in Owned(t);
    assert us[..m] + us[m..] == us;
    LtTrichotomy(pivot, pivot);
    forall i | 0 <= i < |us[m..]| ensures Le(pivot, us[m..][i].key) {
      LtTrichotomy(pivot, us[m + i].key);
    }
    if lo.Some? { LeLt(lo.value, us[0].key, pivot); }
    hide Lt;
    assert KeysOk([pivot], lo, hi);
  }

  /** The child was rewritten in place: the node itself does not change. */
  lemma KidKept(t: Tree, h: nat, lo: Bound, hi: Bound, next: Link, pages: Pages, pages': Pages,
                key: Key, rid: RecordId, l: Tree, r: Tree, n0: nat, n1: nat)
    requires t.NodeT? && Good(t, h, pages, lo, hi, next) && Above(lo, key) && Below(key, hi) && AllUnder(Owned(t), n0)
    requires var i := Route(t.keys, key);
      && Inserted(t.kids[i], h - 1, LoOf(t.keys, lo, i), HiOf(t.keys, hi, i), NextOf(t.kids, next, i), pages',
                  None, l, r, Upsert(Flatten(t.kids[i]), key, rid), n0, n1)
      && Agree(pages, pages', Owned(t) - Owned(t.kids[i]))
    ensures Inserted(t, h, lo, hi, next, pages', None, t.(kids := t.kids[Route(t.keys, key) := l]), r,
                     Upsert(Flatten(t), key, rid), n0, n1)
  {
    hide TreeOk, Linked, Disjoint, Flats, Flatten, Owned, Upsert, FirstLeaf, From, Agree, AllUnder;
    var i := Route(t.keys, key);
    NodeFacts(t, h, lo, hi);
    RouteOperates(t, h, lo, hi, key, rid);
    SameKidOk(t, h, lo, hi, i, l);
    NodeFacts(t.(kids := t.kids[i := l]), h, lo, hi);
    SameKidLinked(t, h, pages, pages', next, i, l, n0, n1);
    SameKidDisjoint(t, i, l, n0, n1);
  }

  /** The node with the child's split absorbed, before it is written. */
  ghost predicate Grown(t: Tree, t': Tree, h: nat, lo: Bound, hi: Bound, next: Link, pages: Pages,
                        entries: seq<Entry>, n0: nat, n1: nat) {
    && t'.NodeT? && h > 0 && TreeOk(t', h, lo, hi) && LinkedKids(t'.kids, h - 1, pages, next) && Disjoint(t')
    && Renewed(t', t, n0, n1) && Flatten(t') == entries
  }

  lemma KidSplit(t: Tree, h: nat, lo: Bound, hi: Bound, next: Link, pages: Pages, pages': Pages,
                 key: Key, rid: RecordId, pivot: Key, q: PageId, l: Tree, r: Tree, n0: nat, n1: nat)
    requires t.NodeT? && Good(t, h, pages, lo, hi, next) && Above(lo, key) && Below(key, hi) && AllUnder(Owned(t), n0)
    requires var i := Route(t.keys, key);
      && Inserted(t.kids[i], h - 1, LoOf(t.keys, lo, i), HiOf(t.keys, hi, i), NextOf(t.kids, next, i), pages',
                  Some((pivot, q)), l, r, Upsert(Flatten(t.kids[i]), key, rid), n0, n1)
      && Agree(pages, pages', Owned(t) - Owned(t.kids[i]))
    ensures SepPos(t.keys, pivot) == Route(t.keys, key)
    ensures Grown(t,
                  NodeT(t.page, WithKey(t.keys, Route(t.keys, key), pivot), WithKid(t.kids, Route(t.keys, key), l, r)),
                  h, lo, hi, next, pages', Upsert(Flatten(t), key, rid), n0, n1)
  {
    hide TreeOk, Linked, LinkedKids, Disjoint, Flats, Flatten, Owned, Upsert, FirstLeaf, From, KeysOk, Agree, AllUnder;
    var i := Route(t.keys, key);
    NodeFacts(t, h, lo, hi);
    var t' := NodeT(t.page, WithKey(t.keys, i, pivot), WithKid(t.kids, i, l, r));
    RouteOperates(t, h, lo, hi, key, rid);
    PivotPlace(t.keys, lo, hi, i, pivot);
    SplitKidOk(t, h, lo, hi, i, l, pivot, r);
    SplitKidLinked(t, h, pages, pages', next, i, l, r, n0, n1);
    SplitKidDisjoint(t, i, t'.keys, l, r, n0, n1);
    NodeFacts(t', h, lo, hi);
    hide WithKid, WithKey;
  }

  lemma KidsFrame(t: Tree, h: nat, pages: Pages, pages': Pages, next: Link)
    requires t.NodeT? && LinkedKids(t.kids, h, pages, next) && Disjoint(t) && Agree(pages, pages', Owned(t) - {t.page})
    ensures LinkedKids(t.kids, h, pages', next)
  {
    forall i | 0 <= i < |t.kids| ensures Linked(t.kids[i], h, pages', NextOf(t.kids, next, i)) {
      OwnedKid(t, i);
      LinkedFrame(t.kids[i], h, pages, pages', NextOf(t.kids, next, i));
    }
  }

  /** The grown node fits and is written back. */
  lemma NodeWritten(t: Tree, t': Tree, h: nat, lo: Bound, hi: Bound, next: Link, pages: Pages, node: Node,
                    entries: seq<Entry>, n0: nat, n1: nat, r: Tree)
    requires Grown(t, t', h, lo, hi, next, pages, entries, n0, n1) && IsInternal(node, h, t'.keys, t'.kids)
    ensures Inserted(t, h, lo, hi, next, pages[t.page := node], None, t', r, entries, n0, n1)
  {
    hide TreeOk, Linked, LinkedKids, Disjoint, Flatten, Owned, FirstLeaf;
    KidsFrame(t', h - 1, pages, pages[t.page := node], next);
    NodeLinks(t', h, pages[t.page := node], next);
  }

  /** The grown node is cut at separator `m`, the right part going to a new page. */
  lemma NodeCut(t: Tree, t': Tree, h: nat, lo: Bound, hi: Bound, next: Link, pages: Pages, m: nat,
                left: Node, q: PageId, right: Node, entries: seq<Entry>, n0: nat, n1: nat, n2: nat)
    requires Grown(t, t', h, lo, hi, next, pages, entries, n0, n1) && m < |t'.keys|
    requires n0 <= n1 <= q < n2 && AllUnder(Owned(t), n0)
    requires IsInternal(left, h, t'.keys[..m], t'.kids[..m + 1])
      && IsInternal(right, h, t'.keys[m + 1..], t'.kids[m + 1..])
    ensures Inserted(t, h, lo, hi, next, pages[q := right][t.page := left], Some((t'.keys[m], q)),
                     NodeT(t.page, t'.keys[..m], t'.kids[..m + 1]), NodeT(q, t'.keys[m + 1..], t'.kids[m + 1..]),
                       entries, n0, n2)
  {
    hide TreeOk, Linked, LinkedKids, Disjoint, Flats, Flatten, Owned, FirstLeaf, Lt, IsInternal;
    var pages' := pages[q := right][t.page := left];
    NodeFacts(t', h, lo, hi);
    var l, r := NodeT(t.page, t'.keys[..m], t'.kids[..m + 1]), NodeT(q, t'.keys[m + 1..], t'.kids[m + 1..]);
    PageOwned(t);
    CutOk(t', h, lo, hi, m, t.page, q);
    NodeFacts(l, h, lo, Some(t'.keys[m]));
    NodeFacts(r, h, Some(t'.keys[m]), hi);
    CutDisjoint(t', m + 1, l.keys, r.keys, q);
    KidsFrame(t', h - 1, pages, pages', next);
    CutKids(t'.kids, h - 1, pages', next, m + 1);
    NodeLinks(l, h, pages', Then(next, FirstLeaf(r)));
    NodeLinks(r, h, pages', next);
    OnePivot(t'.keys, lo, hi, m);
  }

  // ----- What a refused insert leaves -----

  /** `cs` is `us` without one run of entries. */
  ghost predicate Cut(us: seq<Entry>, cs: seq<Entry>) {
    exists i, j :: 0 <= i <= j <= |us| && cs == us[..i] + us[j..]
  }

  /**
   * The subtree `t` after an upsert to `us` that was refused: as it was, or still a subtree, but without the
   * right part of a node that was split and that its parent could not take in.
   */
  ghost predicate Refused(t: Tree, h: nat, lo: Bound, hi: Bound, next: Link, pages: Pages, l: Tree, us: seq<Entry>,
                          n0: nat, n1: nat) {
    (l == t && Good(t, h, pages, lo, hi, next)) || HalfLeft(t, h, lo, hi, pages, l, us, n0, n1)
  }

  ghost predicate HalfLeft(t: Tree, h: nat, lo: Bound, hi: Bound, pages: Pages, l: Tree, us: seq<Entry>, n0: nat,
                           n1: nat)
  {
    Good(l, h, pages, lo, hi, Unknown) && Renewed(l, t, n0, n1) && Cut(us, Flatten(l))
  }

  lemma {:induction false} Widened(t: Tree, h: nat, lo: Bound, m: Key, hi: Bound)
    requires TreeOk(t, h, lo, Some(m)) && Below(m, hi)
    ensures TreeOk(t, h, lo, hi)
    decreases h
  {
    if hi.Some? {
      forall k | Lt(k, m) ensures Lt(k, hi.value) { LtTransitive(k, m, hi.value); }
      hide Lt;
      if t.NodeT? {
        var n := |t.keys|;
        Widened(t.kids[n], h - 1, LoOf(t.keys, lo, n), m, hi);
        forall i | 0 <= i < |t.kids| ensures TreeOk(t.kids[i], h - 1, LoOf(t.keys, lo, i), HiOf(t.keys, hi, i)) {
          assert TreeOk(t.kids[i], h - 1, LoOf(t.keys, lo, i), HiOf(t.keys, Some(m), i));
        }
      }
    } else if t.NodeT? {
      var n := |t.keys|;
      Widened(t.kids[n], h - 1, LoOf(t.keys, lo, n), m, hi);
      hide Lt;
      forall i | 0 <= i < |t.kids| ensures TreeOk(t.kids[i], h - 1, LoOf(t.keys, lo, i), HiOf(t.keys, hi, i)) {
        assert TreeOk(t.kids[i], h - 1, LoOf(t.keys, lo, i), HiOf(t.keys, Some(m), i));
      }
    }
  }

  /** A split whose new separator nobody takes in leaves the left part. */
  lemma HalfKept(t: Tree, h: nat, lo: Bound, hi: Bound, next: Link, pages: Pages, pages': Pages, pivot: Key, q: PageId,
                 l: Tree, r: Tree, us: seq<Entry>, n0: nat, n1: nat)
    requires Inserted(t, h, lo, hi, next, pages, Some((pivot, q)), l, r, us, n0, n1) && Agree(pages, pages', Owned(l))
    ensures HalfLeft(t, h, lo, hi, pages', l, us, n0, n1)
  {
    hide TreeOk, Linked, Disjoint, Owned, Flatten, FirstLeaf, Lt, From, Agree;
    assert Below([pivot][0], hi);
    Widened(l, h, lo, pivot, hi);
    LinkedUnknown(l, h, pages, Then(next, FirstLeaf(r)));
    LinkedFrame(l, h, pages, pages', Unknown);
    var i, j := |Flatten(l)|, |us|;
    assert Flatten(l) == us[..i] + us[j..];
  }

  lemma CutAround(a: seq<Entry>, b: seq<Entry>, b': seq<Entry>, c: seq<Entry>)
    requires Cut(b, b')
    ensures Cut(a + b + c, a + b' + c)
  {
    var i, j :| 0 <= i <= j <= |b| && b' == b[..i] + b[j..];
    var us := a + b + c;
    assert us[..|a| + i] == a + b[..i] && us[|a| + j..] == b[j..] + c;
    assert a + b' + c == us[..|a| + i] + us[|a| + j..];
  }

  /** What was refused below is refused here: the child changed, the node itself did not. */
  lemma KidRefused(t: Tree, h: nat, lo: Bound, hi: Bound, next: Link, pages: Pages, pages': Pages,
                   key: Key, rid: RecordId, l: Tree, n0: nat, n1: nat)
    requires t.NodeT? && Good(t, h, pages, lo, hi, next) && Above(lo, key) && Below(key, hi) && AllUnder(Owned(t), n0)
    requires var i := Route(t.keys, key);
      && Refused(t.kids[i], h - 1, LoOf(t.keys, lo, i), HiOf(t.keys, hi, i), NextOf(t.kids, next, i), pages', l,
                 Upsert(Flatten(t.kids[i]), key, rid), n0, n1)
      && Agree(pages, pages', Owned(t) - Owned(t.kids[i]))
    ensures Refused(t, h, lo, hi, next, pages', t.(kids := t.kids[Route(t.keys, key) := l]),
      Upsert(Flatten(t), key, rid), n0, n1)
  {
    hide TreeOk, Linked, Disjoint, Flats, Flatten, Owned, Upsert, FirstLeaf, From, Agree, AllUnder, Cut;
    var i := Route(t.keys, key);
    NodeFacts(t, h, lo, hi);
    if l == t.kids[i] && Good(l, h - 1, pages', LoOf(t.keys, lo, i), HiOf(t.keys, hi, i), NextOf(t.kids, next, i)) {
      assert t.kids[i := l] == t.kids;
      RenewedSelf(l, n0, n1);
      SameKidLinked(t, h, pages, pages', next, i, l, n0, n1);
    } else {
      hide Good;
      KidHalved(t, h, lo, hi, next, pages, pages', key, rid, l, n0, n1);
    }
  }

  lemma KidHalved(t: Tree, h: nat, lo: Bound, hi: Bound, next: Link, pages: Pages, pages': Pages,
                  key: Key, rid: RecordId, l: Tree, n0: nat, n1: nat)
    requires t.NodeT? && Good(t, h, pages, lo, hi, next) && Above(lo, key) && Below(key, hi) && AllUnder(Owned(t), n0)
    requires var i := Route(t.keys, key);
      && i < |t.kids| && h > 0 && Agree(pages, pages', Owned(t) - Owned(t.kids[i]))
      && HalfLeft(t.kids[i], h - 1, LoOf(t.keys, lo, i), HiOf(t.keys, hi, i), pages', l,
                  Upsert(Flatten(t.kids[i]), key, rid), n0, n1)
    ensures HalfLeft(t, h, lo, hi, pages', t.(kids := t.kids[Route(t.keys, key) := l]), Upsert(Flatten(t), key, rid),
      n0, n1)
  {
    hide TreeOk, Linked, Disjoint, Flats, Flatten, Owned, Upsert, FirstLeaf, From, Agree, AllUnder, Cut;
    var i := Route(t.keys, key);
    var t' := t.(kids := t.kids[i := l]);
    NodeFacts(t, h, lo, hi);
    RouteOperates(t, h, lo, hi, key, rid);
    SameKidOk(t, h, lo, hi, i, l);
    NodeFacts(t', h, lo, hi);
    LinkedUnknown(t, h, pages, next);
    SameKidLinked(t, h, pages, pages', Unknown, i, l, n0, n1);
    SameKidDisjoint(t, i, l, n0, n1);
    CutAround(Flats(t.kids[..i]), Upsert(Flatten(t.kids[i]), key, rid), Flatten(l), Flats(t.kids[i + 1..]));
  }

  /** The node could not take in its child's new separator, and only pages outside the tree were written. */
  lemma NotAbsorbed(t: Tree, h: nat, lo: Bound, hi: Bound, next: Link, pages: Pages, mid: Pages, pages': Pages,
                    key: Key, rid: RecordId, pivot: Key, q: PageId, l: Tree, r: Tree, n0: nat, n1: nat, n2: nat)
    requires t.NodeT? && Good(t, h, pages, lo, hi, next) && Above(lo, key) && Below(key, hi) && AllUnder(Owned(t), n0)
    requires var i := Route(t.keys, key);
      && Inserted(t.kids[i], h - 1, LoOf(t.keys, lo, i), HiOf(t.keys, hi, i), NextOf(t.kids, next, i), mid,
                  Some((pivot, q)), l, r, Upsert(Flatten(t.kids[i]), key, rid), n0, n1)
      && Agree(pages, mid, Owned(t) - Owned(t.kids[i]))
    requires Untouched(mid, pages', {}, n1) && n0 <= n1 <= n2
    ensures Refused(t, h, lo, hi, next, pages', t.(kids := t.kids[Route(t.keys, key) := l]),
      Upsert(Flatten(t), key, rid), n0, n2)
  {
    GoodCases(t, h, pages, lo, hi, next);
    hide Good, Flatten, Upsert, Owned, FirstLeaf, LoOf, HiOf, NextOf, Lt;
    var i := Route(t.keys, key);
    OwnedKid(t, i);
    assert AllUnder(Owned(l), n1);
    assert Agree(mid, pages', Owned(l));
    HalfKept(t.kids[i], h - 1, LoOf(t.keys, lo, i), HiOf(t.keys, hi, i), NextOf(t.kids, next, i), mid, pages', pivot, q,
             l, r, Upsert(Flatten(t.kids[i]), key, rid), n0, n1);
    assert Agree(pages, pages', Owned(t) - Owned(t.kids[i]));
    RefusedLater(t.kids[i], h - 1, LoOf(t.keys, lo, i), HiOf(t.keys, hi, i), NextOf(t.kids, next, i), pages', l,
                 Upsert(Flatten(t.kids[i]), key, rid), n0, n1, n2);
    KidRefused(t, h, lo, hi, next, pages, pages', key, rid, l, n0, n2);
  }

  lemma RefusedLater(t: Tree, h: nat, lo: Bound, hi: Bound, next: Link, pages: Pages, l: Tree, us: seq<Entry>,
                     n0: nat, n1: nat, n2: nat)
    requires Refused(t, h, lo, hi, next, pages, l, us, n0, n1) && n1 <= n2
    ensures Refused(t, h, lo, hi, next, pages, l, us, n0, n2)
  {
    hide Good, Flatten, Owned, FirstLeaf, Cut;
  }

  lemma RenewedSelf(t: Tree, n0: nat, n1: nat)
    ensures Renewed(t, t, n0, n1)
  {
  }

  lemma OnePivot(keys: seq<Key>, lo: Bound, hi: Bound, m: nat)
    requires KeysOk(keys, lo, hi) && m < |keys|
    ensures KeysOk([keys[m]], lo, hi)
  {
  }

  /** Pages are numbered upwards from the root, so no sibling pointer is ever page 0, which on disk means none. */
  ghost predicate AllFrom(s: set<PageId>, n: nat) {
    forall p :: p in s ==> p >= n
  }

  // ----- Sizes over all pages -----

  predicate LeafHolds(us: seq<Entry>, order: nat) { |us| <= order && LeafSize(us) <= MAX_BODY }

  predicate NodeHolds(keys: seq<Key>, order: nat) { |keys| <= order && InternalSize(keys, |keys| + 1) <= MAX_BODY }

  predicate NodeHalvesHold(keys: seq<Key>)
    requires keys != []
  {
    var m := |keys| / 2;
    InternalSize(keys[..m], m + 1) <= MAX_BODY && InternalSize(keys[m + 1..], |keys| - m) <= MAX_BODY
  }

  /** The three ways an upsert of a leaf from `es` to `us` can go. */
  ghost predicate LeafResult(es: seq<Entry>, us: seq<Entry>, order: nat, ok: bool, split: Option<(Key, PageId)>,
                             l: Tree)
  {
    l.LeafT? &&
    if LeafHolds(us, order) then ok && split.None? && l.entries == us
    else if HalvesHold(us) then
      ok && split.Some? && 0 < |us| / 2 < |us| && split.value.0 == us[|us| / 2].key && l.entries == us[..|us| / 2]
    else !ok && split.None? && l.entries == es
  }

  /** What is written of a leaf: itself, itself and its new sibling, or at most a page nobody points to. */
  ghost predicate LeafWrites(pages: Pages, pages': Pages, page: PageId, us: seq<Entry>, ok: bool,
                             split: Option<(Key, PageId)>, n0: nat, n1: nat) {
    page in pages && pages[page].Leaf? &&
    if ok && split.None? then n1 == n0 && pages' == pages[page := Leaf(pages[page].right, us)]
    else if ok then
      && split.value.1 == n0 && n1 == n0 + 1
      && pages' == pages[n0 := Leaf(pages[page].right, us[|us| / 2..])][page := Leaf(Some(n0), us[..|us| / 2])]
    else
      && n1 == n0 + 1
      && (pages' == pages || pages' == pages[n0 := Leaf(pages[page].right, us[|us| / 2..])])
  }

  /** A root leaf keeps its left half, and its right half is on page `q`, next to it. */
  ghost predicate LeftBehind(pages: Pages, pages': Pages, root: PageId, us: seq<Entry>, q: PageId) {
    && root in pages && pages[root].Leaf? && root in pages' && q in pages' && q != root
    && pages'[root] == Leaf(Some(q), us[..|us| / 2]) && pages'[q] == Leaf(pages[root].right, us[|us| / 2..])
  }

  lemma RootHalf(pages: Pages, mid: Pages, pages': Pages, t: Tree, key: Key, rid: RecordId, order: nat,
                 split: Option<(Key, PageId)>, l: Tree, was: seq<PageId>, now: seq<PageId>, n0: nat, n1: nat)
    requires AtLeaf(pages, mid, t, key, rid, order, true, split, l, was, now, n0, n1) && split.Some?
    requires was != [] && was[0] == t.page && t.page < n0
    requires forall p :: p in mid && p < n1 ==> p in pages' && pages'[p] == mid[p]
    ensures now == WithPage(was, 1, n0) && LeftBehind(pages, pages', t.page, Upsert(t.entries, key, rid), n0)
  {
    hide Upsert, WithPage;
    assert At(was, t.page) == 0;
  }

  /** All that an upsert of a leaf does. */
  ghost predicate AtLeaf(pages: Pages, pages': Pages, t: Tree, key: Key, rid: RecordId, order: nat, ok: bool,
                         split: Option<(Key, PageId)>, l: Tree, was: seq<PageId>, now: seq<PageId>, n0: nat, n1: nat) {
    && t.LeafT? && LeafResult(t.entries, Upsert(t.entries, key, rid), order, ok, split, l)
    && LeafWrites(pages, pages', t.page, Upsert(t.entries, key, rid), ok, split, n0, n1)
    && t.page in was && now == Relist(was, t.page, ok, split)
  }

  lemma AtLeafCases(pages: Pages, pages': Pages, t: Tree, key: Key, rid: RecordId, order: nat, ok: bool,
                    split: Option<(Key, PageId)>, l: Tree, was: seq<PageId>, now: seq<PageId>, n0: nat, n1: nat)
    requires AtLeaf(pages, pages', t, key, rid, order, ok, split, l, was, now, n0, n1)
    ensures LeafResult(t.entries, Upsert(t.entries, key, rid), order, ok, split, l)
    ensures t.page in pages && pages[t.page].Leaf?
    ensures ok && split.None? ==>
      now == was && pages' == pages[t.page := Leaf(pages[t.page].right, Upsert(t.entries, key, rid))]
  {
  }

  /** The list after such a write. */
  ghost function Relist(list: seq<PageId>, page: PageId, ok: bool, split: Option<(Key, PageId)>): seq<PageId> {
    if ok && split.Some? && page in list then WithPage(list, At(list, page) + 1, split.value.1) else list
  }

  lemma LeafRelists(list: seq<PageId>, pages: Pages, pages': Pages, page: PageId, us: seq<Entry>, ok: bool,
                    split: Option<(Key, PageId)>, n0: nat, n1: nat)
    requires LeafWrites(pages, pages', page, us, ok, split, n0, n1) && Listed(list, pages, n0) && page in list
    ensures Relisted(list, pages, Relist(list, page, ok, split), pages', n0, n1, ok)
  {
    hide At, WithPage;
    if ok && split.None? {
      ListKept(list, pages, page, us, n0);
    } else if ok {
      ListSplit(list, pages, page, n0, us[..|us| / 2], us[|us| / 2..]);
    } else {
      forall p | p in list ensures p < n0 { OnList(list, pages, n0, p); }
      ListFrame(list, pages, pages', n0, n1);
    }
  }

  predicate HalvesHold(us: seq<Entry>) { LeafSize(us[..|us| / 2]) <= MAX_BODY && LeafSize(us[|us| / 2..]) <= MAX_BODY }

  /** What an upsert below a node asks of that node: nothing, to take in a separator, or to give up. */
  datatype Offer = Fits | Splits(pivot: Key) | Refuses

  /** How the upsert goes, by the sizes of the nodes on the way to the leaf. */
  function Offered(t: Tree, key: Key, rid: RecordId, order: nat): Offer {
    match t
    case LeafT(_, es) =>
      var us := Upsert(es, key, rid);
      if LeafHolds(us, order) then Fits
      else if us != [] && HalvesHold(us) then Splits(us[|us| / 2].key)
      else Refuses
    case NodeT(_, keys, kids) =>
      var i := Route(keys, key);
      if i >= |kids| then Refuses else
      match Offered(kids[i], key, rid, order)
      case Fits => Fits
      case Refuses => Refuses
      case Splits(pivot) => Absorbed(WithKey(keys, i, pivot), order)
  }

  function Absorbed(keys: seq<Key>, order: nat): Offer
    requires keys != []
  {
    if NodeHolds(keys, order) then Fits
    else if NodeHalvesHold(keys) then Splits(keys[|keys| / 2])
    else Refuses
  }

  predicate Went(offer: Offer, ok: bool, split: Option<(Key, PageId)>) {
    match offer
    case Fits => ok && split.None?
    case Splits(pivot) => ok && split.Some? && split.value.0 == pivot
    case Refuses => !ok
  }

  /** The root can give way to a new one above it as long as the separator fits there. */
  predicate Accepted(offer: Offer) {
    match offer
    case Fits => true
    case Splits(pivot) => InternalSize([pivot], 2) <= MAX_BODY
    case Refuses => false
  }

  lemma LeafOffer(t: Tree, key: Key, rid: RecordId, order: nat, ok: bool, split: Option<(Key, PageId)>, l: Tree)
    requires t.LeafT? && LeafResult(t.entries, Upsert(t.entries, key, rid), order, ok, split, l)
    ensures Went(Offered(t, key, rid, order), ok, split)
  {
    hide Upsert, LeafSize;
    UpsertSome(t.entries, key, rid);
  }

  lemma UpsertSome(es: seq<Entry>, key: Key, rid: RecordId)
    ensures Upsert(es, key, rid) != []
  {
  }

  lemma NodeOffer(t: Tree, key: Key, rid: RecordId, order: nat)
    requires t.NodeT? && Route(t.keys, key) < |t.kids|
    ensures Offered(t, key, rid, order) ==
      var i := Route(t.keys, key);
      match Offered(t.kids[i], key, rid, order)
      case Fits => Fits
      case Refuses => Refuses
      case Splits(pivot) => Absorbed(WithKey(t.keys, i, pivot), order)
  {
  }

  ghost predicate FitAll(pages: Pages) {
    forall p :: p in pages ==> Size(pages[p]) <= MAX_BODY
  }

  ghost predicate ShortAll(pages: Pages) {
    forall p :: p in pages ==> Short(pages[p])
  }

  /** The pages added are nodes. */
  ghost predicate NodesAdded(pages: Pages, pages': Pages, n0: nat, n1: nat) {
    && (forall p :: p in pages' ==> p in pages || n0 <= p < n1)
    && (forall p :: p in pages' && pages'[p].Leaf? ==> p in pages && pages[p].Leaf?)
  }

  /** Pages outside `s` that existed before are untouched. */
  ghost predicate Untouched(pages: Pages, pages': Pages, s: set<PageId>, n: nat) {
    forall p :: p < n && p !in s ==> (p in pages <==> p in pages') && (p in pages ==> pages'[p] == pages[p])
  }

  lemma OwnLeaf(list: seq<PageId>, pages: Pages, t: Tree)
    requires t.LeafT? && t.page in pages && pages[t.page].Leaf? && Covers(list, pages, Owned(t))
    ensures t.page in list
  {
  }

  lemma CoversKid(list: seq<PageId>, pages: Pages, t: Tree, i: nat)
    requires t.NodeT? && i < |t.kids| && Covers(list, pages, Owned(t))
    ensures Covers(list, pages, Owned(t.kids[i]))
  {
    OwnedKid(t, i);
  }

  lemma SameKid(t: Tree, i: nat)
    requires t.NodeT? && i < |t.kids|
    ensures t.(kids := t.kids[i := t.kids[i]]) == t
  {
    assert t.kids[i := t.kids[i]] == t.kids;
  }

  /** An insert into a child leaves the node's own page alone. */
  lemma NodeStays(t: Tree, i: nat, pages: Pages, pages': Pages)
    requires t.NodeT? && i < |t.kids| && Disjoint(t) && t.page in pages
    requires Agree(pages, pages', Owned(t) - Owned(t.kids[i]))
    ensures t.page in pages' && pages'[t.page] == pages[t.page]
  {
    PageOwned(t);
  }

  /** Writing a node and adding nodes leaves the list alone. */
  lemma NodesRelist(list: seq<PageId>, before: Pages, list': seq<PageId>, pages: Pages, pages': Pages, page: PageId,
                    n0: nat, n1: nat, n2: nat)
    requires Relisted(list, before, list', pages, n0, n1, true) && n0 <= n1 <= n2
    requires page in pages && pages[page].Internal?
    requires Untouched(pages, pages', {page}, n1) && NodesAdded(pages, pages', n1, n2)
    ensures Relisted(list, before, list', pages', n0, n2, true)
  {
    forall p | p in list' ensures p < n1 && p != page { OnList(list', pages, n1, p); }
    ListFrame(list', pages, pages', n1, n2);
    hide Listed;
  }

  lemma RefusedFrom(t: Tree, h: nat, pages: Pages, next: Link, l: Tree, us: seq<Entry>, n0: nat, n1: nat)
    requires Refused(t, h, None, None, next, pages, l, us, n0, n1)
    ensures l != t ==> From(Owned(l), Owned(t), n0, n1)
    ensures l.LeafT? <==> h == 0
  {
  }

  lemma InsertedFrom(t: Tree, h: nat, pages: Pages, next: Link, split: Option<(Key, PageId)>, l: Tree, r: Tree,
                     us: seq<Entry>, n0: nat, n1: nat)
    requires Inserted(t, h, None, None, next, pages, split, l, r, us, n0, n1)
    ensures From(Owned(l), Owned(t), n0, n1) && (split.Some? ==> From(Owned(r), Owned(t), n0, n1))
    ensures l.LeafT? <==> h == 0
  {
  }

  /** The first page of the list and its bound stay. */
  lemma ListStays(list: seq<PageId>, pages: Pages, list': seq<PageId>, pages': Pages, n0: nat, n1: nat, whole: bool,
                  root: PageId, t: Tree)
    requires Relisted(list, pages, list', pages', n0, n1, whole) && ListFrom(list, root, t) && root <= n0
    ensures ListFrom(list', root, t) && Listed(list', pages', n1)
  {
  }

  lemma RootRelists(t: Tree, h: nat, pages: Pages, pages': Pages, next: Link, pivot: Key, q: PageId, l: Tree, r: Tree,
                    entries: seq<Entry>, n0: nat, p: PageId, now: seq<PageId>)
    returns (list: seq<PageId>)
    requires Inserted(t, h, None, None, next, pages, Some((pivot, q)), l, r, entries, n0, p) && AllUnder(Owned(t), n0)
    requires t.page in pages && t.page < n0 <= p
    requires pages' == pages[p := pages[t.page]][t.page := Internal(h + 1, None, [pivot], [p, q])]
    requires Listed(now, pages, p) && Covers(now, pages, Owned(l)) && Covers(now, pages, Owned(r))
    requires ListFrom(now, t.page, t) && (t.LeafT? <==> h == 0)
    ensures var t' := NodeT(t.page, [pivot], [Moved(l, p), r]);
      Listed(list, pages', p + 1) && Covers(list, pages', Owned(t')) && ListFrom(list, t.page, t')
  {
    var node := Internal(h + 1, None, [pivot], [p, q]);
    var t' := NodeT(t.page, [pivot], [Moved(l, p), r]);
    InsertedFrom(t, h, pages, next, Some((pivot, q)), l, r, entries, n0, p);
    RootSplitFacts(t, h, pages, next, pivot, q, l, r, entries, n0, p);
    assert l.page == t.page;
    RaisedOwned(t', l, p, r);
    hide Inserted, FirstLeaf, Owned, Listed;
    list := if t.LeafT? then now[0 := p] else now;
    if t.LeafT? {
      ListMoved(now, pages, p, node);
      FirstReplaced(now, p);
    } else {
      forall x | x in now ensures x in pages && pages[x].Leaf? && x < p { OnList(now, pages, p, x); }
      OnlyBelow(now, pages, pages', p, t.page);
    }
    forall x | x in list ensures x >= t.page {
      assert x in now || x == p;
    }
    forall x | x in Owned(t') && x in pages' && pages'[x].Leaf? ensures x in list {
      assert x != t.page;
      if x != p {
        assert x in Owned(l) || x in Owned(r);
        assert pages'[x] == pages[x] && x in now;
      }
    }
  }

  lemma OnlyBelow(list: seq<PageId>, pages: Pages, pages': Pages, p: PageId, root: PageId)
    requires Listed(list, pages, p) && root !in list && root < p
    requires forall x :: x in pages' ==> x in pages || x == p
    requires forall x :: x in pages && x != root && x != p ==> x in pages' && pages'[x] == pages[x]
    ensures Listed(list, pages', p + 1)
  {
    forall x | x in list ensures x < p { OnList(list, pages, p, x); }
    ListFrame(list, pages, pages', p, p + 1);
  }

  lemma FirstReplaced(list: seq<PageId>, p: PageId)
    requires list != []
    ensures forall x :: x in list && x != list[0] ==> x in list[0 := p]
    ensures p in list[0 := p] && forall x :: x in list[0 := p] ==> x in list || x == p
  {
    var list' := list[0 := p];
    assert list'[0] == p;
    forall k | 0 < k < |list| ensures list[k] in list' { assert list'[k] == list[k]; }
  }

  lemma RaisedOwned(t': Tree, l: Tree, p: PageId, r: Tree)
    requires t'.NodeT? && t'.page == l.page && t'.kids == [Moved(l, p), r]
    ensures forall x :: x in Owned(t') ==> x == l.page || x == p || x in Owned(l) || x in Owned(r)
  {
  }

  /** Refused, the root may leave a copy of itself on a page nobody points to. */
  lemma StrayPage(t: Tree, h: nat, pages: Pages, pages': Pages, next: Link, pivot: Key, q: PageId, l: Tree, r: Tree,
                  entries: seq<Entry>, n0: nat, p: PageId, now: seq<PageId>)
    requires Inserted(t, h, None, None, next, pages, Some((pivot, q)), l, r, entries, n0, p) && AllUnder(Owned(t), n0)
    requires t.page in pages && n0 <= p && (pages' == pages || pages' == pages[p := pages[t.page]])
    requires Listed(now, pages, p) && Covers(now, pages, Owned(l)) && ListFrom(now, t.page, t) && (t.LeafT? <==> h == 0)
    ensures Listed(now, pages', p + 1) && Covers(now, pages', Owned(l)) && ListFrom(now, t.page, l)
  {
    InsertedFrom(t, h, pages, next, Some((pivot, q)), l, r, entries, n0, p);
    hide Inserted, FirstLeaf, Owned;
    forall x | x in now ensures x < p { OnList(now, pages, p, x); }
    ListFrame(now, pages, pages', p, p + 1);
    hide Listed;
  }

  /** Pages are numbered upwards from the root, which is on the list only while it is a leaf, and then first. */
  ghost predicate ListFrom(list: seq<PageId>, root: PageId, tree: Tree) {
    (forall p :: p in list ==> p >= root) && (tree.LeafT? ==> list != [] && list[0] == root)
  }

  class BTree {
    const root: PageId
    const order: nat
    var pages: Pages
    var nextPage: PageId
    ghost var tree: Tree
    ghost var height: nat
    /** `To(None)` while the sibling chain is the list of leaves, `Unknown` after an insert was refused half-way. */
    ghost var chain: Link
    /** The leaf pages along their right siblings, those the tree has lost included. */
    ghost var list: seq<PageId>

    ghost predicate Valid()
      reads this
    {
      && order >= 2 && tree.page == root && Good(tree, height, pages, None, None, chain)
      && AllUnder(Owned(tree), nextPage) && AllFrom(Owned(tree), root) && FitAll(pages)
      && Listed(list, pages, nextPage) && Covers(list, pages, Owned(tree)) && ListFrom(list, root, tree)
    }

    /** The entries of the tree, in key order. */
    ghost function Contents(): seq<Entry>
      reads this
    {
      Flatten(tree)
    }

    constructor (order: nat, firstFree: PageId)
      ensures Valid() && Contents() == [] && ShortAll(pages) && root == firstFree && height == 0 && chain == To(None)
      ensures pages == map[root := Leaf(None, [])] && list == [root] && nextPage == root + 1
    {
      this.order := if order < 2 then 2 else order;
      root, nextPage := firstFree, firstFree + 1;
      pages := map[firstFree := Leaf(None, [])];
      tree, height, chain, list := LeafT(firstFree, []), 0, To(None), [firstFree];
    }

    /** `put_node`: a body over the limit is refused. */
    method PutNode(p: PageId, node: Node) returns (ok: bool)
      requires FitAll(pages)
      modifies this`pages
      ensures FitAll(pages) && (ok <==> Size(node) <= MAX_BODY)
      ensures pages == if ok then old(pages)[p := node] else old(pages)
    {
      ok := Size(node) <= MAX_BODY;
      if ok {
        pages := pages[p := node];
      }
    }

    method AllocNode(node: Node) returns (ok: bool, p: PageId)
      requires FitAll(pages)
      modifies this`pages, this`nextPage
      ensures FitAll(pages) && (ok <==> Size(node) <= MAX_BODY)
      ensures p == old(nextPage) && nextPage == p + 1
      ensures pages == if ok then old(pages)[p := node] else old(pages)
    {
      p := nextPage;
      nextPage := nextPage + 1;
      ok := PutNode(p, node);
    }

    /** `insert_into` on a leaf. */
    method InsertLeaf(page: PageId, key: Key, rid: RecordId, ghost t: Tree, ghost lo: Bound, ghost hi: Bound,
                      ghost next: Link)
      returns (ok: bool, split: Option<(Key, PageId)>, ghost l: Tree, ghost r: Tree)
      requires order >= 2 && FitAll(pages) && t.LeafT? && page == t.page && Good(t, 0, pages, lo, hi, next)
      requires Above(lo, key) && Below(key, hi) && AllUnder(Owned(t), nextPage)
      modifies this`pages, this`nextPage
      ensures FitAll(pages) && nextPage >= old(nextPage) && Untouched(old(pages), pages, Owned(t), old(nextPage))
      ensures ok ==>
        Inserted(t, 0, lo, hi, next, pages, split, l, r, Upsert(Flatten(t), key, rid), old(nextPage), nextPage)
      ensures !ok ==> Refused(t, 0, lo, hi, next, pages, l, Upsert(Flatten(t), key, rid), old(nextPage), nextPage)
      ensures LeafResult(t.entries, Upsert(t.entries, key, rid), order, ok, split, l) && (!ok ==> l == t)
      ensures LeafWrites(old(pages), pages, page, Upsert(t.entries, key, rid), ok, split, old(nextPage), nextPage)
      ensures ShortAll(old(pages)) && |key| <= MAX_KEY ==>
        ok && ShortAll(pages) && (split.Some? ==> |split.value.0| <= MAX_KEY)
    {
      hide Lt, Upsert, Within, EntryBytes, Inserted;
      var leaf := pages[page];
      var us := Upsert(leaf.entries, key, rid);
      UpsertWithin(leaf.entries, key, rid, lo, hi);
      if ShortAll(pages) && |key| <= MAX_KEY { LeafHalvesFit(leaf.entries, key, rid); }
      r := t;
      if |us| <= order && LeafSize(us) <= MAX_BODY {
        LeafKept(t, lo, hi, next, pages, key, rid, nextPage, nextPage);
        split, l := None, LeafT(page, us);
        ok := PutNode(page, Leaf(leaf.right, us));
        return;
      }
      var m := |us| / 2;
      ghost var was := pages;
      var q;
      split, l := None, t;
      PageOwned(t);
      ok, q := CutLeaf(page, leaf.right, us);
      if ok {
        WholeLeaf(us, m);
        LeafSplit(t, lo, hi, next, was, us, m, q, q, nextPage);
        split, l, r := Some((us[m].key, q)), LeafT(page, us[..m]), LeafT(q, us[m..]);
      }
    }

    /** The two halves of a leaf: the right one on a new page, the left one written back. */
    method CutLeaf(page: PageId, right: Option<PageId>, us: seq<Entry>) returns (ok: bool, q: PageId)
      requires FitAll(pages) && page in pages && page < nextPage
      modifies this`pages, this`nextPage
      ensures FitAll(pages) && q == old(nextPage) && nextPage == q + 1 && (ok <==> HalvesHold(us))
      ensures var m := |us| / 2;
        var added := old(pages)[q := Leaf(right, us[m..])];
        if ok then pages == added[page := Leaf(Some(q), us[..m])] else pages == old(pages) || pages == added
      ensures Untouched(old(pages), pages, {page}, q)
      ensures ok && ShortAll(old(pages)) && ShortEntries(us) ==> ShortAll(pages)
    {
      hide EntryBytes;
      var m := |us| / 2;
      ok, q := AllocNode(Leaf(right, us[m..]));
      if ok {
        ok := PutNode(page, Leaf(Some(q), us[..m]));
      }
    }

    /** The tail of `insert_into` on an internal node: take in the child's new separator, and split if need be. */
    method Absorb(page: PageId, level: nat, right: Option<PageId>, keys: seq<Key>, children: seq<PageId>,
                  ghost t: Tree, ghost t': Tree, ghost lo: Bound, ghost hi: Bound, ghost next: Link,
                  ghost entries: seq<Entry>, ghost n0: nat)
      returns (ok: bool, split: Option<(Key, PageId)>, ghost l: Tree, ghost r: Tree)
      requires order >= 2 && FitAll(pages) && page == t.page && AllUnder(Owned(t), n0) && n0 <= nextPage
      requires Grown(t, t', level, lo, hi, next, pages, entries, n0, nextPage)
      requires keys == t'.keys && keys != [] && children == KidPages(t'.kids) && page in pages
      modifies this`pages, this`nextPage
      ensures FitAll(pages) && nextPage >= old(nextPage) && Untouched(old(pages), pages, {page}, old(nextPage))
      ensures !ok ==> Untouched(old(pages), pages, {}, old(nextPage))
      ensures ok <==> NodeHolds(keys, order) || NodeHalvesHold(keys)
      ensures Went(Absorbed(keys, order), ok, split)
      ensures NodesAdded(old(pages), pages, old(nextPage), nextPage)
      ensures ok ==> Inserted(t, level, lo, hi, next, pages, split, l, r, entries, n0, nextPage)
      ensures ShortAll(old(pages)) && Halves(keys) ==>
        ok && ShortAll(pages) && (split.Some? ==> |split.value.0| <= MAX_KEY)
    {
      hide Grown, Inserted, KeyBytes, Owned, Flatten, Good;
      r := t;
      PageOwned(t);
      GrownFacts(t, t', level, lo, hi, next, pages, entries, n0, nextPage);
      if |keys| <= order && InternalSize(keys, |children|) <= MAX_BODY {
        split, l := None, t';
        NodeWritten(t, t', level, lo, hi, next, pages, Internal(level, right, keys, children), entries, n0, nextPage,
          r);
        ok := PutNode(page, Internal(level, right, keys, children));
        return;
      }
      var m := |keys| / 2;
      ghost var was, n1 := pages, nextPage;
      split, l := None, t;
      var q;
      ok, q := CutNode(page, level, right, keys, children);
      if ok {
        CutPages(t'.kids, m + 1);
        NodeCut(t, t', level, lo, hi, next, was, m, pages[page], q, pages[q], entries, n0, n1, nextPage);
        split := Some((keys[m], q));
        l, r := NodeT(page, keys[..m], t'.kids[..m + 1]), NodeT(q, keys[m + 1..], t'.kids[m + 1..]);
      }
    }

    /** The two halves of a node: the right one on a new page, the left one written back. */
    method CutNode(page: PageId, level: nat, right: Option<PageId>, keys: seq<Key>, children: seq<PageId>)
      returns (ok: bool, q: PageId)
      requires FitAll(pages) && keys != [] && |children| == |keys| + 1 && page in pages && page < nextPage
      modifies this`pages, this`nextPage
      ensures FitAll(pages) && q == old(nextPage) && nextPage == q + 1 && (ok <==> NodeHalvesHold(keys))
      ensures ok ==> var m := |keys| / 2;
        pages == old(pages)[q := Internal(level, right, keys[m + 1..], children[m + 1..])]
                           [page := Internal(level, Some(q), keys[..m], children[..m + 1])]
      ensures Untouched(old(pages), pages, if ok then {page} else {}, q) && NodesAdded(old(pages), pages, q, q + 1)
      ensures ShortAll(old(pages)) && Halves(keys) ==> ok && ShortAll(pages)
    {
      hide KeyBytes;
      var m := |keys| / 2;
      ok, q := AllocNode(Internal(level, right, keys[m + 1..], children[m + 1..]));
      if ok {
        ok := PutNode(page, Internal(level, Some(q), keys[..m], children[..m + 1]));
      }
    }

    /** The same, with what it does to the list of leaves. */
    method InsertListed(page: PageId, key: Key, rid: RecordId, ghost t: Tree, ghost lo: Bound, ghost hi: Bound,
                        ghost next: Link, ghost was: seq<PageId>)
      returns (ok: bool, split: Option<(Key, PageId)>, ghost l: Tree, ghost r: Tree, ghost now: seq<PageId>)
      requires order >= 2 && FitAll(pages) && t.LeafT? && page == t.page && Good(t, 0, pages, lo, hi, next)
      requires Above(lo, key) && Below(key, hi) && AllUnder(Owned(t), nextPage)
      requires Listed(was, pages, nextPage) && Covers(was, pages, Owned(t))
      modifies this`pages, this`nextPage
      ensures FitAll(pages) && nextPage >= old(nextPage) && Untouched(old(pages), pages, Owned(t), old(nextPage))
      ensures ok ==>
        Inserted(t, 0, lo, hi, next, pages, split, l, r, Upsert(Flatten(t), key, rid), old(nextPage), nextPage)
      ensures !ok ==> Refused(t, 0, lo, hi, next, pages, l, Upsert(Flatten(t), key, rid), old(nextPage), nextPage)
      ensures Went(Offered(t, key, rid, order), ok, split)
      ensures Relisted(was, old(pages), now, pages, old(nextPage), nextPage, ok || l != t)
      ensures AtLeaf(old(pages), pages, t, key, rid, order, ok, split, l, was, now, old(nextPage), nextPage)
      ensures ShortAll(old(pages)) && |key| <= MAX_KEY ==>
        ok && ShortAll(pages) && (split.Some? ==> |split.value.0| <= MAX_KEY)
    {
      hide Inserted, Upsert, Flatten, Untouched, Offered, Listed, Covers, Relisted, LeafWrites, Relist, Refused, Lt;
      GoodCases(t, 0, pages, lo, hi, next);
      hide Good;
      ghost var before, n0 := pages, nextPage;
      ok, split, l, r := InsertLeaf(page, key, rid, t, lo, hi, next);
      LeafOffer(t, key, rid, order, ok, split, l);
      OwnLeaf(was, before, t);
      LeafRelists(was, before, pages, page, Upsert(t.entries, key, rid), ok, split, n0, nextPage);
      now := Relist(was, page, ok, split);
    }

    /** `insert_into`: upsert into the subtree at `page`. */
    method InsertInto(page: PageId, key: Key, rid: RecordId,
                      ghost t: Tree, ghost h: nat, ghost lo: Bound, ghost hi: Bound, ghost next: Link,
                      ghost was: seq<PageId>)
      returns (ok: bool, split: Option<(Key, PageId)>, ghost l: Tree, ghost r: Tree, ghost now: seq<PageId>)
      requires order >= 2 && FitAll(pages) && page == t.page && Good(t, h, pages, lo, hi, next)
      requires Above(lo, key) && Below(key, hi) && AllUnder(Owned(t), nextPage)
      requires Listed(was, pages, nextPage) && Covers(was, pages, Owned(t))
      modifies this`pages, this`nextPage
      ensures FitAll(pages) && nextPage >= old(nextPage) && Untouched(old(pages), pages, Owned(t), old(nextPage))
      ensures ok ==>
        Inserted(t, h, lo, hi, next, pages, split, l, r, Upsert(Flatten(t), key, rid), old(nextPage), nextPage)
      ensures !ok ==> Refused(t, h, lo, hi, next, pages, l, Upsert(Flatten(t), key, rid), old(nextPage), nextPage)
      ensures t.LeafT? ==>
        AtLeaf(old(pages), pages, t, key, rid, order, ok, split, l, was, now, old(nextPage), nextPage)
      ensures Went(Offered(t, key, rid, order), ok, split)
      ensures Relisted(was, old(pages), now, pages, old(nextPage), nextPage, ok || l != t)
      ensures ShortAll(old(pages)) && |key| <= MAX_KEY ==>
        ok && ShortAll(pages) && (split.Some? ==> |split.value.0| <= MAX_KEY)
      decreases h
    {
      hide Inserted, Upsert, Flatten, LoOf, HiOf, NextOf, KeyBytes, Lt, Untouched, AllUnder, Offered, Absorbed, Listed,
        Covers, Relisted, AtLeaf, NodesAdded, Refused, KeysOk, LinkedKids, Disjoint;
      GoodCases(t, h, pages, lo, hi, next);
      hide Good;
      var node := pages[page];
      ghost var before, n0 := pages, nextPage;
      if node.Leaf? {
        ok, split, l, r, now := InsertListed(page, key, rid, t, lo, hi, next, was);
        return;
      }
      var i := Route(node.keys, key);
      KidGood(t, h, pages, lo, hi, next, key, nextPage);
      CoversKid(was, pages, t, i);
      ghost var kl, kr;
      ok, split, kl, kr, now := InsertInto(node.children[i], key, rid, t.kids[i], h - 1,
                                           LoOf(t.keys, lo, i), HiOf(t.keys, hi, i), NextOf(t.kids, next, i), was);
      l, r := t, kr;
      NodeOffer(t, key, rid, order);
      KidTouched(t, i, before, pages, n0);
      if !ok {
        l := t.(kids := t.kids[i := kl]);
        SameKid(t, i);
        KidRefused(t, h, lo, hi, next, before, pages, key, rid, kl, n0, nextPage);
        return;
      }
      match split {
        case None =>
          l := t.(kids := t.kids[i := kl]);
          KidKept(t, h, lo, hi, next, before, pages, key, rid, kl, kr, n0, nextPage);
          RelistedAny(was, before, now, pages, n0, nextPage, ok || l != t);
        case Some((pivot, q)) =>
          var pos := SepPos(node.keys, pivot);
          KidSplit(t, h, lo, hi, next, before, pages, key, rid, pivot, q, kl, kr, n0, nextPage);
          KidPagesGrown(t, h, lo, hi, next, pages, i, pivot, q, kl, kr, Upsert(Flatten(t.kids[i]), key, rid), n0,
            nextPage);
          if ShortAll(before) && |key| <= MAX_KEY { GrownHalves(node, pos, pivot); }
          ghost var t' := NodeT(page, WithKey(t.keys, i, pivot), WithKid(t.kids, i, kl, kr));
          ghost var mid, n1 := pages, nextPage;
          NodeStays(t, i, before, mid);
          ok, split, l, r := Absorb(page, node.level, node.right, node.keys[..pos] + [pivot] + node.keys[pos..],
                                    node.children[..pos + 1] + [q] + node.children[pos + 1..],
                                    t, t', lo, hi, next, Upsert(Flatten(t), key, rid), n0);
          UntouchedTwice(before, mid, pages, t, n0, n1);
          NodesRelist(was, before, now, mid, pages, page, n0, n1, nextPage);
          if !ok {
            l := t.(kids := t.kids[i := kl]);
            NotAbsorbed(t, h, lo, hi, next, before, mid, pages, key, rid, pivot, q, kl, kr, n0, n1, nextPage);
          }
          RelistedAny(was, before, now, pages, n0, nextPage, ok || l != t);
      }
    }

    /** Insert or replace the entry for `key`; a root split moves the old root's left half to a new page. */
    method Insert(key: Key, rid: RecordId) returns (ok: bool)
      requires Valid()
      modifies this
      ensures Valid()
      ensures ok ==> Contents() == Upsert(old(Contents()), key, rid) && chain == old(chain)
      ensures !ok ==>
        || (Contents() == old(Contents()) && chain == old(chain))
        || (Cut(Upsert(old(Contents()), key, rid), Contents()) && chain == Unknown)
      ensures old(height) == 0 ==> var us := Upsert(old(Contents()), key, rid);
        && (LeafHolds(us, order) ==> ok && height == 0)
        && (!LeafHolds(us, order) && !HalvesHold(us) ==> !ok && Contents() == old(Contents()))
        && (!LeafHolds(us, order) && HalvesHold(us) && InternalSize([us[|us| / 2].key], 2) > MAX_BODY ==>
              !ok && Contents() == us[..|us| / 2])
      ensures ok <==> Accepted(Offered(old(tree), key, rid, order))
      ensures old(height) == 0 && !ok ==>
        height == 0 && tree.LeafT? && root in old(pages) && old(pages[root]).Leaf? && old(list) != []
      ensures old(height) == 0 ==> var us := Upsert(old(Contents()), key, rid);
        && (ok && LeafHolds(us, order) ==>
              && list == old(list) && root in old(pages) && old(pages[root]).Leaf?
              && pages == old(pages)[root := Leaf(old(pages[root]).right, us)])
        && (!ok && HalvesHold(us) ==>
              list == WithPage(old(list), 1, old(nextPage)) && LeftBehind(old(pages), pages, root, us, old(nextPage)))
      ensures ShortAll(old(pages)) && |key| <= MAX_KEY ==> ok && ShortAll(pages)
    {
      hide Inserted, Upsert, Flatten, Good, Owned, FirstLeaf, KeyBytes, Offered, Listed, Covers, Relisted, AtLeaf,
        LeftBehind, AllFrom, WithPage;
      PageOwned(tree);
      LeafCase(tree, height, pages, chain);
      var split;
      ghost var l, r, now;
      ghost var n0, before := nextPage, pages;
      ok, split, l, r, now := InsertInto(root, key, rid, tree, height, None, None, chain, list);
      FlattenLeaf(l);
      if tree.LeafT? { AtLeafCases(before, pages, tree, key, rid, order, ok, split, l, list, now, n0, nextPage); }
      ListStays(list, before, now, pages, n0, nextPage, ok || l != tree, root, tree);
      if !ok {
        RefusedWhole(tree, height, pages, chain, l, Upsert(Flatten(tree), key, rid), n0, nextPage);
        RefusedFrom(tree, height, pages, chain, l, Upsert(Flatten(tree), key, rid), n0, nextPage);
        StillCovers(list, before, now, pages, n0, nextPage, l != tree, Owned(tree), Owned(l));
        chain := if l == tree && Good(l, height, pages, None, None, chain) then chain else Unknown;
        tree, list := l, now;
        return;
      }
      match split {
        case None =>
          InsertedWhole(tree, height, pages, chain, l, r, Upsert(Flatten(tree), key, rid), n0, nextPage);
          InsertedFrom(tree, height, pages, chain, split, l, r, Upsert(Flatten(tree), key, rid), n0, nextPage);
          StillCovers(list, before, now, pages, n0, nextPage, true, Owned(tree), Owned(l));
          tree, list := l, now;
        case Some((pivot, q)) =>
          InsertedFrom(tree, height, pages, chain, split, l, r, Upsert(Flatten(tree), key, rid), n0, nextPage);
          StillCovers(list, before, now, pages, n0, nextPage, true, Owned(tree), Owned(l));
          StillCovers(list, before, now, pages, n0, nextPage, true, Owned(tree), Owned(r));
          ghost var mid, n1, t := pages, nextPage, tree;
          ghost var was := list;
          ok := RaiseRoot(pivot, q, l, r, Upsert(Flatten(tree), key, rid), n0, now);
          if !ok && t.LeafT? { RootHalf(before, mid, pages, t, key, rid, order, split, l, was, now, n0, n1); }
      }
    }

    /** The root has split: its left half moves to a new page, and it becomes the node above the two. */
    method RaiseRoot(pivot: Key, q: PageId, ghost l: Tree, ghost r: Tree, ghost entries: seq<Entry>, ghost n0: nat,
                     ghost now: seq<PageId>)
      returns (ok: bool)
      requires order >= 2 && FitAll(pages) && tree.page == root && root < n0 <= nextPage
      requires AllUnder(Owned(tree), n0) && AllFrom(Owned(tree), root)
      requires Inserted(tree, height, None, None, chain, pages, Some((pivot, q)), l, r, entries, n0, nextPage)
      requires Listed(now, pages, nextPage) && Covers(now, pages, Owned(l)) && Covers(now, pages, Owned(r))
      requires ListFrom(now, root, tree) && (tree.LeafT? <==> height == 0)
      modifies this`pages, this`nextPage, this`tree, this`height, this`chain, this`list
      ensures Valid() && (ok <==> InternalSize([pivot], 2) <= MAX_BODY)
      ensures ok ==> Contents() == entries && chain == old(chain)
      ensures !ok ==> tree == l && Cut(entries, Contents()) && chain == Unknown && list == now && height == old(height)
      ensures !ok ==> forall p :: p in old(pages) && p < old(nextPage) ==> p in pages && pages[p] == old(pages)[p]
      ensures ShortAll(old(pages)) && |pivot| <= MAX_KEY ==> ok && ShortAll(pages)
    {
      hide Inserted, Flatten, Good, Owned, FirstLeaf, KeyBytes, Listed, Covers, AllUnder, AllFrom;
      RootSplitFacts(tree, height, pages, chain, pivot, q, l, r, entries, n0, nextPage);
      var left := pages[root];
      var level := match left case Internal(n, _, _, _) => n + 1 case Leaf(_, _) => 1;
      ghost var was, n1 := pages, nextPage;
      var p;
      ok, p := AllocNode(left);
      RootFits(pivot);
      if ok {
        ok := PutNode(root, Internal(level, None, [pivot], [p, q]));
      }
      if ok {
        RootMoved(tree, height, was, pages, chain, pivot, q, l, r, entries, n0, p, nextPage);
        list := RootRelists(tree, height, was, pages, chain, pivot, q, l, r, entries, n0, p, now);
        tree := NodeT(root, [pivot], [Moved(l, p), r]);
        height := height + 1;
      } else {
        RootUnsplit(tree, height, was, pages, chain, pivot, q, l, r, entries, n0, p, nextPage);
        StrayPage(tree, height, was, pages, chain, pivot, q, l, r, entries, n0, p, now);
        tree, chain, list := l, Unknown, now;
      }
    }

    /** No right-sibling pointer is the NIL page id 0, so the on-disk form of a leaf loses nothing. */
    lemma SiblingIsNotNil(p: PageId)
      requires Valid() && p in pages && pages[p].Leaf? && (p in Owned(tree) || p in list)
      ensures pages[p].right != Some(0)
    {
      var k := At(list, p);
      assert Points(list, pages, k);
      if k + 1 < |list| {
        assert list[k + 1] in list && list[k + 1] != list[0];
        RootNotLater(list, pages, tree, height, chain, root, nextPage, k + 1);
      }
    }

    /** Walk from the root to the leaf where `key` belongs. */
    method Descend(key: Key) returns (page: PageId)
      requires Valid()
      ensures var leaf := LeafFor(tree, key);
        leaf.LeafT? && leaf.page == page && page in pages && pages[page].Leaf? && pages[page].entries == leaf.entries
    {
      hide LoOf, HiOf, NextOf, Lt, Owned, FirstLeaf, Flatten;
      page := root;
      ghost var t, h, lo: Bound, hi: Bound, next := tree, height, None, None, chain;
      GoodCases(t, h, pages, lo, hi, next);
      while pages[page].Internal?
        invariant Good(t, h, pages, lo, hi, next) && t.page == page && page in pages
        invariant (pages[page].Leaf? <==> t.LeafT?) && Above(lo, key) && Below(key, hi)
        invariant LeafFor(t, key) == LeafFor(tree, key) && AllUnder(Owned(t), nextPage)
        decreases h
      {
        GoodCases(t, h, pages, lo, hi, next);
        KidGood(t, h, pages, lo, hi, next, key, nextPage);
        var i := Route(pages[page].keys, key);
        page := pages[page].children[i];
        t, h, lo, hi, next := t.kids[i], h - 1, LoOf(t.keys, lo, i), HiOf(t.keys, hi, i), NextOf(t.kids, next, i);
        GoodCases(t, h, pages, lo, hi, next);
      }
    }

    /** Point lookup. */
    method Search(key: Key) returns (found: Option<RecordId>)
      requires Valid()
      ensures found == Find(Contents(), key)
    {
      var page := Descend(key);
      LeafForFinds(tree, height, None, None, key);
      var entries := pages[page].entries;
      var pos := Pos(entries, key);
      if pos < |entries| && entries[pos].key == key {
        found := Some(entries[pos].rid);
      } else {
        found := None;
      }
    }

    /** Remove the entry for `key`, if there is one; nodes are never merged. */
    method Delete(key: Key) returns (removed: bool)
      requires Valid()
      modifies this
      ensures Valid() && Contents() == Remove(old(Contents()), key) && chain == old(chain)
      ensures removed <==> Find(old(Contents()), key).Some?
      ensures ShortAll(old(pages)) ==> ShortAll(pages)
    {
      hide Lt, TreeOk, Linked, Disjoint, Owned, FirstLeaf, Flatten, EntryBytes, Remove, Find, Pos, LeafFor, RemoveAt,
        Listed, Covers;
      var page := Descend(key);
      LeafForFinds(tree, height, None, None, key);
      var leaf := pages[page];
      RemoveCases(leaf.entries, key);
      RemoveCases(Flatten(tree), key);
      removed := Hit(leaf.entries, key);
      if removed {
        var pos := Pos(leaf.entries, key);
        RemoveGood(tree, height, pages, None, None, chain, key, nextPage);
        RemoveFits(leaf.entries, key);
        ghost var was := pages;
        pages := pages[page := Leaf(leaf.right, leaf.entries[..pos] + leaf.entries[pos + 1..])];
        RemoveRelists(tree, RemoveAt(tree, key), height, was, pages, chain, list, page,
                      leaf.entries[..pos] + leaf.entries[pos + 1..], root, nextPage);
        tree := RemoveAt(tree, key);
      }
    }

    /**
     * All entries with `start <= key < end`, along the sibling chain. What the walk collects is that as long as no
     * insert has lost entries; afterwards it still goes through the leaves that were lost.
     */
    method Range(start: Key, end: Key) returns (out: seq<Entry>)
      requires Valid()
      ensures var page := LeafFor(tree, start).page;
        page in list && out == Walk(list[At(list, page)..], pages, start, end)
      ensures chain == To(None) ==> out == Slice(Contents(), start, end)
    {
      hide TreeOk, Linked, LinkedKids, Disjoint, Owned, Lt, Flatten, Flats, Slice, Leaves, LeafIx, LeafFor, Walk, Stop;
      var page := Descend(start);
      LeafOwned(tree, height, pages, None, None, chain, start, nextPage);
      ghost var from, k := At(list, page), At(list, page);
      hide At;
      out := [];
      var cursor := Some(page);
      while cursor.Some?
        invariant from <= k <= |list| && cursor == if k < |list| then Some(list[k]) else None
        invariant out + Walk(list[k..], pages, start, end) == Walk(list[from..], pages, start, end)
        decreases |list| - k
      {
        assert Points(list, pages, k);
        WalkStep(list, pages, start, end, k);
        var leaf := pages[cursor.value];
        var done;
        out, done := TakeFrom(leaf.entries, start, end, out);
        k := if done then |list| else k + 1;
        WalkNothing(list, pages, start, end);
        if done { break; }
        cursor := leaf.right;
      }
      WalkNothing(list, pages, start, end);
      if chain == To(None) { WalkIsSlice(tree, height, pages, list, nextPage, start, end); }
    }
  }

  /** Add one leaf's entries in range, stopping at the first entry past the end. */
  method TakeFrom(entries: seq<Entry>, start: Key, end: Key, sofar: seq<Entry>) returns (out: seq<Entry>, done: bool)
    ensures out == sofar + Slice(entries[..Stop(entries, end)], start, end)
    ensures done <==> Stop(entries, end) < |entries|
  {
    hide Lt;
    out, done := sofar, false;
    for i := 0 to |entries|
      invariant i <= Stop(entries, end) && out == sofar + Slice(entries[..i], start, end)
    {
      if Le(end, entries[i].key) {
        return out, true;
      }
      assert entries[..i + 1][..i] == entries[..i];
      if Le(start, entries[i].key) {
        out := out + [entries[i]];
      }
    }
  }

  lemma WalkNothing(list: seq<PageId>, pages: Pages, start: Key, end: Key)
    ensures Walk(list[|list|..], pages, start, end) == []
  {
  }

  lemma RootNotLater(list: seq<PageId>, pages: Pages, t: Tree, h: nat, next: Link, root: PageId, n: nat, k: nat)
    requires Listed(list, pages, n) && ListFrom(list, root, t) && t.page == root && Good(t, h, pages, None, None, next)
    requires 0 < k < |list|
    ensures list[k] > root
  {
    OnList(list, pages, n, list[k]);
    GoodCases(t, h, pages, None, None, next);
    assert list[0] != list[k];
  }

  /** The leaf where a key belongs is one of the tree's pages. */
  lemma {:induction false} LeafOwned(t: Tree, h: nat, pages: Pages, lo: Bound, hi: Bound, next: Link, key: Key, n: nat)
    requires Good(t, h, pages, lo, hi, next) && Above(lo, key) && Below(key, hi) && AllUnder(Owned(t), n)
    ensures LeafFor(t, key).page in Owned(t)
    decreases h
  {
    GoodCases(t, h, pages, lo, hi, next);
    if t.NodeT? {
      hide Lt, Good;
      var i := Route(t.keys, key);
      KidGood(t, h, pages, lo, hi, next, key, n);
      OwnedKid(t, i);
      LeafOwned(t.kids[i], h - 1, pages, LoOf(t.keys, lo, i), HiOf(t.keys, hi, i), NextOf(t.kids, next, i), key, n);
    }
  }

  /** Taking an entry out of a leaf leaves the list alone. */
  lemma RemoveRelists(t: Tree, t': Tree, h: nat, pages: Pages, pages': Pages, next: Link, list: seq<PageId>,
                      page: PageId, es: seq<Entry>, root: PageId, n: nat)
    requires Listed(list, pages, n) && Covers(list, pages, Owned(t)) && ListFrom(list, root, t) && page in Owned(t)
    requires page in pages && pages[page].Leaf? && pages' == pages[page := Leaf(pages[page].right, es)]
    requires Good(t, h, pages, None, None, next) && Good(t', h, pages', None, None, next) && Owned(t') <= Owned(t)
    ensures Listed(list, pages', n) && Covers(list, pages', Owned(t')) && ListFrom(list, root, t')
  {
    ListKept(list, pages, page, es, n);
    LeafCase(t, h, pages, next);
    LeafCase(t', h, pages', next);
    hide Good, Owned, Listed;
  }

  /** While the sibling chain is the list of leaves, the walk from the leaf for `start` collects the range. */
  lemma WalkIsSlice(t: Tree, h: nat, pages: Pages, list: seq<PageId>, n: nat, start: Key, end: Key)
    requires Good(t, h, pages, None, None, To(None)) && Listed(list, pages, n) && LeafFor(t, start).page in list
    ensures Walk(list[At(list, LeafFor(t, start).page)..], pages, start, end) == Slice(Flatten(t), start, end)
  {
    hide Lt, Walk, Slice, Flatten, Flats, Owned, At, TreeOk, Linked, LinkedKids, Disjoint, Leaves, LeafIx, LeafFor;
    hide Listed;
    LeafChain(t, h, pages, None, None, To(None));
    StartLeaf(t, h, None, None, start);
    var leaves, k := Leaves(t), LeafIx(t, start);
    assert forall i :: 0 <= i < |Flats(leaves[..k])| ==> Lt(Flats(leaves[..k])[i].key, start);
    SliceNone(Flats(leaves[..k]), start, end);
    WalkLeaves(t, h, pages, list, n, start, end, leaves, k, At(list, LeafFor(t, start).page));
  }

  lemma {:induction false} WalkLeaves(t: Tree, h: nat, pages: Pages, list: seq<PageId>, n: nat, start: Key, end: Key,
                                      leaves: seq<Tree>, k: nat, at: nat)
    requires TreeOk(t, h, None, None) && leaves == Leaves(t) && LinkedKids(leaves, 0, pages, To(None))
    requires Flats(leaves) == Flatten(t) && Listed(list, pages, n)
    requires k < |leaves| && at < |list| && list[at] == leaves[k].page
    ensures Slice(Flats(leaves[..k]), start, end) + Walk(list[at..], pages, start, end) == Slice(Flatten(t), start, end)
    decreases |leaves| - k
  {
    hide Lt, TreeOk, Linked, LinkedKids, Flatten, Flats, Slice, Walk, Leaves, Stop;
    ChainLeaf(leaves, pages, k);
    var es := leaves[k].entries;
    var e := Stop(es, end);
    assert Points(list, pages, at);
    WalkStep(list, pages, start, end, at);
    SliceApp(Flats(leaves[..k]), es[..e], start, end);
    if e < |es| {
      StopsThere(es, end);
      RangeEnds(t, h, leaves, k, e, start, end);
    } else {
      assert es[..e] == es && leaves[..k + 1] == leaves[..k] + [leaves[k]];
      FlatsLast(leaves[..k], leaves[k]);
      if k + 1 < |leaves| {
        WalkLeaves(t, h, pages, list, n, start, end, leaves, k + 1, at + 1);
      } else {
        assert at + 1 == |list| && leaves[..k + 1] == leaves;
        WalkNothing(list, pages, start, end);
      }
    }
  }

  lemma StopsThere(es: seq<Entry>, end: Key)
    ensures Stop(es, end) < |es| ==> Le(end, es[Stop(es, end)].key)
  {
  }

  // ----- Searching -----

  /** The leaf a search for `key` ends in. */
  function LeafFor(t: Tree, key: Key): Tree {
    match t
    case LeafT(_, _) => t
    case NodeT(_, keys, kids) => if Route(keys, key) < |kids| then LeafFor(kids[Route(keys, key)], key) else t
  }

  lemma {:induction false} LeafForFinds(t: Tree, h: nat, lo: Bound, hi: Bound, key: Key)
    requires TreeOk(t, h, lo, hi) && Above(lo, key) && Below(key, hi)
    ensures LeafFor(t, key).LeafT? && Find(Flatten(t), key) == Find(LeafFor(t, key).entries, key)
    decreases h
  {
    if t.NodeT? {
      var i := Route(t.keys, key);
      RouteOperates(t, h, lo, hi, key, RecordId(0, 0));
      RouteIsolates(t, h, lo, hi, key);
      LeafForFinds(t.kids[i], h - 1, LoOf(t.keys, lo, i), HiOf(t.keys, hi, i), key);
    }
  }

  // ----- Deleting -----

  /** The tree with `key` removed from its leaf. */
  ghost function RemoveAt(t: Tree, key: Key): Tree {
    match t
    case LeafT(p, es) => LeafT(p, Remove(es, key))
    case NodeT(_, keys, kids) =>
      var i := Route(keys, key);
      if i < |kids| then t.(kids := kids[i := RemoveAt(kids[i], key)]) else t
  }

  function WithoutKey(node: Node, key: Key): Node
    requires node.Leaf?
  {
    node.(entries := Remove(node.entries, key))
  }

  lemma {:induction false} LeafForOwned(t: Tree, h: nat, pages: Pages, lo: Bound, hi: Bound, next: Link, key: Key)
    requires Good(t, h, pages, lo, hi, next)
    ensures var leaf := LeafFor(t, key); leaf.page in Owned(t) && leaf.page in pages && pages[leaf.page].Leaf?
    decreases h
  {
    if t.NodeT? {
      var i := Route(t.keys, key);
      KidAt(t, h, pages, lo, hi, next, i);
      LeafForOwned(t.kids[i], h - 1, pages, LoOf(t.keys, lo, i), HiOf(t.keys, hi, i), NextOf(t.kids, next, i), key);
      OwnedKid(t, i);
    }
  }

  lemma {:induction false} RemoveGood(t: Tree, h: nat, pages: Pages, lo: Bound, hi: Bound, next: Link, key: Key, n: nat)
    requires Good(t, h, pages, lo, hi, next) && Above(lo, key) && Below(key, hi) && AllUnder(Owned(t), n)
    ensures var p := LeafFor(t, key).page;
      p in pages && pages[p].Leaf? && p in Owned(t)
      && Good(RemoveAt(t, key), h, pages[p := WithoutKey(pages[p], key)], lo, hi, next)
    ensures Flatten(RemoveAt(t, key)) == Remove(Flatten(t), key)
    ensures Renewed(RemoveAt(t, key), t, n, n) && Owned(RemoveAt(t, key)) <= Owned(t)
    decreases h
  {
    if t.LeafT? {
      RemoveWithin(t.entries, key, lo, hi);
    } else {
      var i := Route(t.keys, key);
      LeafForOwned(t, h, pages, lo, hi, next, key);
      KidGood(t, h, pages, lo, hi, next, key, n);
      RemoveGood(t.kids[i], h - 1, pages, LoOf(t.keys, lo, i), HiOf(t.keys, hi, i), NextOf(t.kids, next, i), key, n);
      assert RemoveAt(t, key) == t.(kids := t.kids[i := RemoveAt(t.kids[i], key)])
        && LeafFor(t, key) == LeafFor(t.kids[i], key);
      hide RemoveAt, LeafFor;
      RemoveKid(t, h, pages, lo, hi, next, key, n, LeafFor(t, key).page, RemoveAt(t.kids[i], key));
    }
    assert Owned(RemoveAt(t, key)) <= Owned(t);
  }

  lemma RemoveKid(t: Tree, h: nat, pages: Pages, lo: Bound, hi: Bound, next: Link, key: Key, n: nat, p: PageId,
                  kid: Tree)
    requires t.NodeT? && Good(t, h, pages, lo, hi, next) && Above(lo, key) && Below(key, hi) && AllUnder(Owned(t), n)
    requires var i := Route(t.keys, key);
      && i < |t.kids| && p in pages && pages[p].Leaf? && p in Owned(t.kids[i])
      && Good(kid, h - 1, pages[p := WithoutKey(pages[p], key)], LoOf(t.keys, lo, i), HiOf(t.keys, hi, i),
           NextOf(t.kids, next, i))
      && Flatten(kid) == Remove(Flatten(t.kids[i]), key) && Renewed(kid, t.kids[i], n, n)
    ensures var t' := t.(kids := t.kids[Route(t.keys, key) := kid]);
      Good(t', h, pages[p := WithoutKey(pages[p], key)], lo, hi, next) && Flatten(t') == Remove(Flatten(t), key)
      && Renewed(t', t, n, n)
  {
    hide TreeOk, Linked, LinkedKids, Disjoint, Flats, Flatten, Owned, FirstLeaf, Lt;
    var i := Route(t.keys, key);
    var pages' := pages[p := WithoutKey(pages[p], key)];
    NodeFacts(t, h, lo, hi);
    RouteOperates(t, h, lo, hi, key, RecordId(0, 0));
    SameKidOk(t, h, lo, hi, i, kid);
    NodeFacts(t.(kids := t.kids[i := kid]), h, lo, hi);
    SameKidLinked(t, h, pages, pages', next, i, kid, n, n);
    SameKidDisjoint(t, i, kid, n, n);
  }

  lemma RemoveFits(es: seq<Entry>, key: Key)
    ensures LeafSize(Remove(es, key)) <= LeafSize(es) && (ShortEntries(es) ==> ShortEntries(Remove(es, key)))
  {
    if Hit(es, key) {
      var p := Pos(es, key);
      EntryBytesAt(es, p);
      EntryBytesApp(es[..p], es[p + 1..]);
    }
  }

  lemma RemoveCases(es: seq<Entry>, key: Key)
    ensures Remove(es, key) == if Hit(es, key) then es[..Pos(es, key)] + es[Pos(es, key) + 1..] else es
    ensures Find(es, key).Some? <==> Hit(es, key)
  {
  }

  // ----- The leaf chain -----

  ghost function Leaves(t: Tree): seq<Tree>
    decreases t, 0
  {
    match t
    case LeafT(_, _) => [t]
    case NodeT(_, _, kids) => LeavesOf(kids)
  }

  ghost function LeavesOf(ts: seq<Tree>): seq<Tree>
    decreases ts, |ts|
  {
    if ts == [] then [] else LeavesOf(ts[..|ts| - 1]) + Leaves(ts[|ts| - 1])
  }

  lemma {:induction false} LeavesOfApp(a: seq<Tree>, b: seq<Tree>)
    ensures LeavesOf(a + b) == LeavesOf(a) + LeavesOf(b)
  {
    if b == [] {
      assert a + b == a;
    } else {
      var n := |b| - 1;
      LeavesOfApp(a, b[..n]);
      LeavesLast(a + b[..n], b[n]);
      LeavesLast(b[..n], b[n]);
      SplitLast(a, b);
      SeqAssoc(LeavesOf(a), LeavesOf(b[..n]), Leaves(b[n]));
      hide *;
    }
  }

  /** Two chains, the first ending at the head of the second, make one. */
  lemma ChainJoin(a: seq<Tree>, b: seq<Tree>, pages: Pages, next: Link)
    requires b != [] && LinkedKids(a, 0, pages, Then(next, FirstLeaf(b[0]))) && LinkedKids(b, 0, pages, next)
    ensures LinkedKids(a + b, 0, pages, next)
  {
    var c := a + b;
    forall i | 0 <= i < |c| ensures Linked(c[i], 0, pages, NextOf(c, next, i)) {
      if i < |a| {
        assert Linked(a[i], 0, pages, NextOf(a, Then(next, FirstLeaf(b[0])), i));
      } else {
        assert Linked(b[i - |a|], 0, pages, NextOf(b, next, i - |a|));
      }
    }
  }

  /** The leaves of a tree, in key order, are exactly the sibling chain, and hold exactly its entries. */
  lemma {:induction false} LeafChain(t: Tree, h: nat, pages: Pages, lo: Bound, hi: Bound, next: Link)
    requires Good(t, h, pages, lo, hi, next)
    ensures LinkedKids(Leaves(t), 0, pages, next) && Flats(Leaves(t)) == Flatten(t)
    ensures Leaves(t) != [] && FirstLeaf(Leaves(t)[0]) == FirstLeaf(t)
    decreases h, 1
  {
    if t.LeafT? {
      LeafAlone(t, pages, next);
    } else {
      GoodCases(t, h, pages, lo, hi, next);
      assert Leaves(t) == LeavesOf(t.kids) && FirstLeaf(t) == FirstLeaf(t.kids[0]) && Flatten(t) == Flats(t.kids);
      hide Good, LinkedKids, Flats, LeavesOf, Leaves, FirstLeaf, Flatten, LoOf, HiOf;
      forall i | 0 <= i < |t.kids|
        ensures Good(t.kids[i], h - 1, pages, LoOf(t.keys, lo, i), HiOf(t.keys, hi, i), NextOf(t.kids, next, i))
      {
        KidAt(t, h, pages, lo, hi, next, i);
      }
      KidsChain(t, h, pages, lo, hi, next, |t.kids|);
      assert t.kids[..|t.kids|] == t.kids;
    }
  }

  lemma LeafAlone(t: Tree, pages: Pages, next: Link)
    requires t.LeafT? && Linked(t, 0, pages, next)
    ensures LinkedKids([t], 0, pages, next) && Flats([t]) == Flatten(t)
  {
    FlatsLast([], t);
    assert [] + [t] == [t];
  }

  lemma {:induction false} KidsChain(t: Tree, h: nat, pages: Pages, lo: Bound, hi: Bound, next: Link, n: nat)
    requires t.NodeT? && h > 0 && 0 < n <= |t.kids| == |t.keys| + 1
    requires forall i :: 0 <= i < |t.kids| ==>
      Good(t.kids[i], h - 1, pages, LoOf(t.keys, lo, i), HiOf(t.keys, hi, i), NextOf(t.kids, next, i))
    ensures LinkedKids(LeavesOf(t.kids[..n]), 0, pages, NextOf(t.kids, next, n - 1))
    ensures Flats(LeavesOf(t.kids[..n])) == Flats(t.kids[..n])
    ensures LeavesOf(t.kids[..n]) != [] && FirstLeaf(LeavesOf(t.kids[..n])[0]) == FirstLeaf(t.kids[0])
    decreases h, 0, n
  {
    hide Good, LinkedKids, Flats, LeavesOf, Leaves, FirstLeaf, Flatten, LoOf, HiOf;
    var kid := t.kids[n - 1];
    var nx := NextOf(t.kids, next, n - 1);
    LeafChain(kid, h - 1, pages, LoOf(t.keys, lo, n - 1), HiOf(t.keys, hi, n - 1), nx);
    if n == 1 {
      OneKid(t.kids);
    } else {
      KidsChain(t, h, pages, lo, hi, next, n - 1);
      KidsChainStep(t.kids[..n - 1], kid, pages, nx);
      assert t.kids[..n] == t.kids[..n - 1] + [kid];
    }
  }

  lemma OneKid(kids: seq<Tree>)
    requires kids != []
    ensures LeavesOf(kids[..1]) == Leaves(kids[0]) && Flats(kids[..1]) == Flatten(kids[0])
  {
    assert kids[..1][..0] == [];
    assert LeavesOf([]) + Leaves(kids[0]) == Leaves(kids[0]) && Flats([]) + Flatten(kids[0]) == Flatten(kids[0]);
  }

  lemma KidsChainStep(kids: seq<Tree>, kid: Tree, pages: Pages, next: Link)
    requires LinkedKids(LeavesOf(kids), 0, pages, Then(next, FirstLeaf(kid))) && Flats(LeavesOf(kids)) == Flats(kids)
      && LeavesOf(kids) != []
    requires LinkedKids(Leaves(kid), 0, pages, next) && Flats(Leaves(kid)) == Flatten(kid)
    requires Leaves(kid) != [] && FirstLeaf(Leaves(kid)[0]) == FirstLeaf(kid)
    ensures LinkedKids(LeavesOf(kids + [kid]), 0, pages, next) && Flats(LeavesOf(kids + [kid])) == Flats(kids + [kid])
    ensures LeavesOf(kids + [kid]) != [] && LeavesOf(kids + [kid])[0] == LeavesOf(kids)[0]
  {
    hide *;
    LeavesLast(kids, kid);
    FlatsLast(kids, kid);
    FlatsApp(LeavesOf(kids), Leaves(kid));
    ChainJoin(LeavesOf(kids), Leaves(kid), pages, next);
  }

  lemma LeavesLast(ts: seq<Tree>, t: Tree)
    ensures LeavesOf(ts + [t]) == LeavesOf(ts) + Leaves(t)
  {
    assert (ts + [t])[..|ts|] == ts;
  }

  lemma ChainLeaf(leaves: seq<Tree>, pages: Pages, k: nat)
    requires LinkedKids(leaves, 0, pages, To(None)) && k < |leaves|
    ensures leaves[k].LeafT? && leaves[k].page in pages
    ensures pages[leaves[k].page]
      == Leaf(if k + 1 < |leaves| then Some(leaves[k + 1].page) else None, leaves[k].entries)
    ensures Flatten(leaves[k]) == leaves[k].entries
  {
    assert Linked(leaves[k], 0, pages, NextOf(leaves, To(None), k));
    if k + 1 < |leaves| { assert Linked(leaves[k + 1], 0, pages, NextOf(leaves, To(None), k + 1)); }
  }

  /** The position of the leaf for `key` in the chain. */
  ghost function LeafIx(t: Tree, key: Key): nat {
    match t
    case LeafT(_, _) => 0
    case NodeT(_, keys, kids) =>
      var i := Route(keys, key);
      if i < |kids| then |LeavesOf(kids[..i])| + LeafIx(kids[i], key) else 0
  }

  /** A scan that starts at the leaf for `start` misses nothing in range. */
  lemma {:induction false} StartLeaf(t: Tree, h: nat, lo: Bound, hi: Bound, start: Key)
    requires TreeOk(t, h, lo, hi) && Above(lo, start) && Below(start, hi)
    ensures var k := LeafIx(t, start);
      k < |Leaves(t)| && Leaves(t)[k] == LeafFor(t, start) && AllBelow(Flats(Leaves(t)[..k]), start)
    decreases h
  {
    if t.LeafT? {
      assert Leaves(t)[..0] == [];
    } else {
      var i := Route(t.keys, start);
      RouteIsolates(t, h, lo, hi, start);
      StartStep(t, h, lo, hi, start);
      hide *;
      StartLeaf(t.kids[i], h - 1, LoOf(t.keys, lo, i), HiOf(t.keys, hi, i), start);
      StartKid(t.kids, i, LeafIx(t.kids[i], start), start);
    }
  }

  lemma StartStep(t: Tree, h: nat, lo: Bound, hi: Bound, key: Key)
    requires t.NodeT? && TreeOk(t, h, lo, hi)
    ensures var i := Route(t.keys, key);
      && h > 0 && i < |t.kids| && TreeOk(t.kids[i], h - 1, LoOf(t.keys, lo, i), HiOf(t.keys, hi, i))
      && Leaves(t) == LeavesOf(t.kids) && LeafFor(t, key) == LeafFor(t.kids[i], key)
      && LeafIx(t, key) == |LeavesOf(t.kids[..i])| + LeafIx(t.kids[i], key)
  {
  }

  lemma StartKid(kids: seq<Tree>, i: nat, k: nat, start: Key)
    requires i < |kids| && k < |Leaves(kids[i])| && AllBelow(Flats(kids[..i]), start)
      && AllBelow(Flats(Leaves(kids[i])[..k]), start)
    ensures var n := |LeavesOf(kids[..i])| + k;
      n < |LeavesOf(kids)| && LeavesOf(kids)[n] == Leaves(kids[i])[k] && AllBelow(Flats(LeavesOf(kids)[..n]), start)
  {
    var front, ls := LeavesOf(kids[..i]), Leaves(kids[i]);
    hide *;
    LeavesAround(kids, i);
    IndexPast(front, ls, LeavesOf(kids[i + 1..]), k);
    FlatsApp(front, ls[..k]);
    FlatLeaves(kids[..i]);
    BothBelow(Flats(kids[..i]), Flats(ls[..k]), start);
  }

  lemma BothBelow(a: seq<Entry>, b: seq<Entry>, key: Key)
    requires AllBelow(a, key) && AllBelow(b, key)
    ensures AllBelow(a + b, key)
  {
  }

  lemma LeavesAround(kids: seq<Tree>, i: nat)
    requires i < |kids|
    ensures LeavesOf(kids) == LeavesOf(kids[..i]) + Leaves(kids[i]) + LeavesOf(kids[i + 1..])
  {
    hide *;
    SplitAt(kids, i);
    LeavesOfApp(kids[..i] + [kids[i]], kids[i + 1..]);
    LeavesLast(kids[..i], kids[i]);
  }

  lemma {:induction false} FlatLeaves(ts: seq<Tree>)
    ensures Flats(LeavesOf(ts)) == Flats(ts)
    decreases ts, |ts|
  {
    if ts != [] {
      var n := |ts| - 1;
      FlatLeaves(ts[..n]);
      FlatLeavesOf(ts[n]);
      FlatsApp(LeavesOf(ts[..n]), Leaves(ts[n]));
    }
  }

  lemma {:induction false} FlatLeavesOf(t: Tree)
    ensures Flats(Leaves(t)) == Flatten(t)
    decreases t, 0
  {
    match t
    case LeafT(_, _) =>
      FlatsLast([], t);
      assert [] + [t] == [t];
    case NodeT(_, _, kids) =>
      FlatLeaves(kids);
  }

  lemma SliceCut(es: seq<Entry>, p: nat, start: Key, end: Key)
    requires Sorted(es) && p < |es| && Le(end, es[p].key)
    ensures Slice(es, start, end) == Slice(es[..p], start, end)
  {
    assert es == es[..p] + es[p..];
    SliceApp(es[..p], es[p..], start, end);
    forall i | 0 <= i < |es[p..]| ensures Le(end, es[p..][i].key) {
      if i > 0 { LeLt(end, es[p].key, es[p + i].key); LtTrichotomy(end, es[p + i].key); }
    }
    SliceNone(es[p..], start, end);
  }

  /** Stopping at the first entry past the end loses nothing. */
  lemma RangeEnds(t: Tree, h: nat, leaves: seq<Tree>, k: nat, e: nat, start: Key, end: Key)
    requires TreeOk(t, h, None, None) && leaves == Leaves(t) && k < |leaves| && leaves[k].LeafT?
    requires e < |leaves[k].entries| && Le(end, leaves[k].entries[e].key)
    ensures Slice(Flatten(t), start, end) == Slice(Flats(leaves[..k]) + leaves[k].entries[..e], start, end)
  {
    hide Lt, Slice;
    FlattenWithin(t, h, None, None);
    FlatLeavesOf(t);
    FlatsAround(leaves, k);
    assert Flatten(leaves[k]) == leaves[k].entries;
    hide Flats, Flatten, TreeOk;
    var es, before := Flatten(t), Flats(leaves[..k]);
    assert es[..|before| + e] == before + leaves[k].entries[..e];
    SliceCut(es, |before| + e, start, end);
  }

  // ----- The root -----

  lemma InsertedWhole(t: Tree, h: nat, pages: Pages, next: Link, l: Tree, r: Tree, entries: seq<Entry>, n0: nat,
                      n1: nat)
    requires Inserted(t, h, None, None, next, pages, None, l, r, entries, n0, n1) && AllUnder(Owned(t), n0) && n0 <= n1
    ensures Good(l, h, pages, None, None, next) && l.page == t.page && AllUnder(Owned(l), n1) && Flatten(l) == entries
    ensures AllFrom(Owned(t), t.page) && t.page <= n0 ==> AllFrom(Owned(l), t.page)
  {
    hide Good, Owned, Flatten, FirstLeaf;
  }

  lemma FlattenLeaf(t: Tree)
    ensures t.LeafT? ==> Flatten(t) == t.entries
  {
  }

  lemma LeafCase(t: Tree, h: nat, pages: Pages, next: Link)
    requires Good(t, h, pages, None, None, next)
    ensures h == 0 <==> t.LeafT?
    ensures t.LeafT? ==> Flatten(t) == t.entries
  {
  }

  lemma RefusedWhole(t: Tree, h: nat, pages: Pages, next: Link, l: Tree, us: seq<Entry>, n0: nat, n1: nat)
    requires Refused(t, h, None, None, next, pages, l, us, n0, n1) && AllUnder(Owned(t), n0) && n0 <= n1
    ensures l.page == t.page && AllUnder(Owned(l), n1)
    ensures AllFrom(Owned(t), t.page) && t.page <= n0 ==> AllFrom(Owned(l), t.page)
    ensures if l == t && Good(l, h, pages, None, None, next) then true
            else Good(l, h, pages, None, None, Unknown) && Cut(us, Flatten(l))
  {
    hide Good, Owned, Flatten, FirstLeaf, Cut;
  }

  /** The separator is too long even for a root of its own: the old root keeps its left half. */
  lemma RootUnsplit(t: Tree, h: nat, pages: Pages, pages': Pages, next: Link, pivot: Key, q: PageId, l: Tree, r: Tree,
                    us: seq<Entry>, n0: nat, p: PageId, n1: nat)
    requires Inserted(t, h, None, None, next, pages, Some((pivot, q)), l, r, us, n0, p) && AllUnder(Owned(t), n0)
    requires n0 <= p && n1 == p + 1 && t.page in pages && (pages' == pages || pages' == pages[p := pages[t.page]])
    ensures Good(l, h, pages', None, None, Unknown) && Cut(us, Flatten(l)) && l.page == t.page && AllUnder(Owned(l), n1)
    ensures AllFrom(Owned(t), t.page) && t.page <= n0 ==> AllFrom(Owned(l), t.page)
  {
    hide Good, Owned, Flatten, FirstLeaf, Cut;
    assert AllUnder(Owned(l), p);
    HalfKept(t, h, None, None, next, pages, pages', pivot, q, l, r, us, n0, p);
  }

  /** The same subtree with its top node on page `p`. */
  function Moved(t: Tree, p: PageId): Tree { t.(page := p) }

  lemma RootSplitFacts(t: Tree, h: nat, pages: Pages, next: Link, pivot: Key, q: PageId, l: Tree, r: Tree,
                       entries: seq<Entry>, n0: nat, n1: nat)
    requires Inserted(t, h, None, None, next, pages, Some((pivot, q)), l, r, entries, n0, n1)
    ensures t.page in pages && (pages[t.page].Leaf? <==> h == 0)
      && (pages[t.page].Internal? ==> pages[t.page].level == h)
  {
    GoodCases(l, h, pages, None, Some(pivot), Then(next, FirstLeaf(r)));
  }

  lemma RootFits(pivot: Key)
    ensures |pivot| <= MAX_KEY ==> InternalSize([pivot], 2) <= MAX_BODY
  {
    var one: seq<Key> := [pivot];
    assert one[..0] == [] && KeyBytes(one) == 4 + |pivot|;
  }

  lemma MovedGood(t: Tree, h: nat, pages: Pages, pages': Pages, lo: Bound, hi: Bound, next: Link, p: PageId)
    requires Good(t, h, pages, lo, hi, next) && p !in Owned(t)
    requires p in pages' && pages'[p] == pages[t.page] && Agree(pages, pages', Owned(t) - {t.page})
    ensures Good(Moved(t, p), h, pages', lo, hi, next) && Flatten(Moved(t, p)) == Flatten(t)
    ensures Owned(Moved(t, p)) == Owned(t) - {t.page} + {p}
    ensures FirstLeaf(Moved(t, p)) == if t.LeafT? then p else FirstLeaf(t)
  {
    MovedOwned(t, h, lo, hi, p);
    MovedOk(t, h, lo, hi, p);
    if t.NodeT? {
      KidsFrame(t, h - 1, pages, pages', next);
      hide TreeOk, Disjoint, Owned, Flatten;
      NodeLinks(Moved(t, p), h, pages', next);
    } else {
      hide TreeOk, Disjoint, Owned;
    }
  }

  lemma MovedOk(t: Tree, h: nat, lo: Bound, hi: Bound, p: PageId)
    requires TreeOk(t, h, lo, hi)
    ensures TreeOk(Moved(t, p), h, lo, hi) && Flatten(Moved(t, p)) == Flatten(t)
    ensures FirstLeaf(Moved(t, p)) == if t.LeafT? then p else FirstLeaf(t)
  {
  }

  lemma MovedOwned(t: Tree, h: nat, lo: Bound, hi: Bound, p: PageId)
    requires Disjoint(t) && p !in Owned(t)
    ensures Disjoint(Moved(t, p)) && Owned(Moved(t, p)) == Owned(t) - {t.page} + {p}
  {
    if t.NodeT? {
      forall i | 0 <= i < |t.kids| ensures Owned(t.kids[i]) <= Owned(t) {
        OwnedKid(t, i);
      }
    }
  }

  lemma PairLinked(l: Tree, r: Tree, h: nat, pages: Pages, next: Link)
    requires Linked(l, h, pages, Then(next, FirstLeaf(r))) && Linked(r, h, pages, next)
    ensures LinkedKids([l, r], h, pages, next) && KidPages([l, r]) == [l.page, r.page]
  {
  }

  lemma PairOk(p: PageId, l: Tree, pivot: Key, r: Tree, h: nat)
    requires TreeOk(l, h, None, Some(pivot)) && TreeOk(r, h, Some(pivot), None)
    ensures TreeOk(NodeT(p, [pivot], [l, r]), h + 1, None, None)
    ensures Flatten(NodeT(p, [pivot], [l, r])) == Flatten(l) + Flatten(r)
  {
    FlatsLast([l], r);
    FlatsLast([], l);
    assert [l] + [r] == [l, r] && [] + [l] == [l];
  }

  lemma PairDisjoint(p: PageId, keys: seq<Key>, l: Tree, r: Tree)
    requires Disjoint(l) && Disjoint(r) && Owned(l) !! Owned(r) && p !in Owned(l) && p !in Owned(r)
    ensures Disjoint(NodeT(p, keys, [l, r])) && Owned(NodeT(p, keys, [l, r])) == {p} + Owned(l) + Owned(r)
  {
    var t := NodeT(p, keys, [l, r]);
    assert t.kids[0] == l && t.kids[1] == r;
  }

  lemma RootMoved(t: Tree, h: nat, pages: Pages, pages': Pages, next: Link, pivot: Key, q: PageId, l: Tree, r: Tree,
                  entries: seq<Entry>, n0: nat, p: PageId, n1: nat)
    requires Inserted(t, h, None, None, next, pages, Some((pivot, q)), l, r, entries, n0, p) && AllUnder(Owned(t), n0)
    requires t.page in pages && n0 <= p && n1 == p + 1
    requires pages' == pages[p := pages[t.page]][t.page := Internal(h + 1, None, [pivot], [p, q])]
    ensures var t' := NodeT(t.page, [pivot], [Moved(l, p), r]);
      Good(t', h + 1, pages', None, None, next) && AllUnder(Owned(t'), n1) && Flatten(t') == entries
      && (AllFrom(Owned(t), t.page) ==> AllFrom(Owned(t'), t.page))
  {
    hide TreeOk, Linked, LinkedKids, Disjoint, Flatten, Owned, FirstLeaf, KeysOk;
    var l' := Moved(l, p);
    PageOwned(t);
    PageOwned(l);
    MovedGood(l, h, pages, pages', None, Some(pivot), Then(next, FirstLeaf(r)), p);
    LinkedFrame(r, h, pages, pages', next);
    PairLinked(l', r, h, pages', next);
    PairOk(t.page, l', pivot, r, h);
    PairDisjoint(t.page, [pivot], l', r);
    NodeLinks(NodeT(t.page, [pivot], [l', r]), h + 1, pages', next);
  }

  /** Both halves of the node would fit, and its separators are short. */
  ghost predicate Halves(keys: seq<Key>) {
    && keys != [] && ShortKeys(keys)
    && InternalSize(keys[..|keys| / 2], |keys| / 2 + 1) <= MAX_BODY
    && InternalSize(keys[|keys| / 2 + 1..], |keys| - |keys| / 2) <= MAX_BODY
  }

  lemma GrownHalves(node: Node, pos: nat, pivot: Key)
    requires node.Internal? && Short(node) && Size(node) <= MAX_BODY && pos <= |node.keys| && |pivot| <= MAX_KEY
    ensures Halves(node.keys[..pos] + [pivot] + node.keys[pos..])
  {
    InternalHalvesFit(node.keys, pos, pivot);
  }

  lemma GrownFacts(t: Tree, t': Tree, h: nat, lo: Bound, hi: Bound, next: Link, pages: Pages,
                   entries: seq<Entry>, n0: nat, n1: nat)
    requires Grown(t, t', h, lo, hi, next, pages, entries, n0, n1)
    ensures t'.NodeT? && |t'.kids| == |t'.keys| + 1
  {
  }

  lemma CutPages(kids: seq<Tree>, m: nat)
    requires m <= |kids|
    ensures KidPages(kids[..m]) == KidPages(kids)[..m] && KidPages(kids[m..]) == KidPages(kids)[m..]
  {
  }

  lemma GoodCases(t: Tree, h: nat, pages: Pages, lo: Bound, hi: Bound, next: Link)
    requires Good(t, h, pages, lo, hi, next)
    ensures t.page in pages && (pages[t.page].Leaf? <==> t.LeafT?)
    ensures t.LeafT? ==> h == 0
    ensures t.NodeT? ==> h > 0 && |t.kids| == |t.keys| + 1 && IsInternal(pages[t.page], h, t.keys, t.kids)
  {
  }

  /** The child on the search path meets the method's own requirements. */
  lemma KidGood(t: Tree, h: nat, pages: Pages, lo: Bound, hi: Bound, next: Link, key: Key, n: nat)
    requires t.NodeT? && Good(t, h, pages, lo, hi, next) && Above(lo, key) && Below(key, hi) && AllUnder(Owned(t), n)
    ensures var i := Route(t.keys, key);
      && i < |t.kids|
      && Good(t.kids[i], h - 1, pages, LoOf(t.keys, lo, i), HiOf(t.keys, hi, i), NextOf(t.kids, next, i))
      && Above(LoOf(t.keys, lo, i), key) && Below(key, HiOf(t.keys, hi, i)) && AllUnder(Owned(t.kids[i]), n)
  {
    var i := Route(t.keys, key);
    RouteIsolates(t, h, lo, hi, key);
    OwnedKid(t, i);
    hide Flats, AllBelow, AllAbove, Owned, Lt;
    KidAt(t, h, pages, lo, hi, next, i);
  }

  lemma KidAt(t: Tree, h: nat, pages: Pages, lo: Bound, hi: Bound, next: Link, i: nat)
    requires t.NodeT? && Good(t, h, pages, lo, hi, next) && i <= |t.keys|
    ensures i < |t.kids|
      && Good(t.kids[i], h - 1, pages, LoOf(t.keys, lo, i), HiOf(t.keys, hi, i), NextOf(t.kids, next, i))
  {
    assert TreeOk(t.kids[i], h - 1, LoOf(t.keys, lo, i), HiOf(t.keys, hi, i));
    assert LinkedKids(t.kids, h - 1, pages, next);
  }

  lemma KidTouched(t: Tree, i: nat, pages: Pages, pages': Pages, n: nat)
    requires t.NodeT? && i < |t.kids| && AllUnder(Owned(t), n) && Untouched(pages, pages', Owned(t.kids[i]), n)
    ensures Untouched(pages, pages', Owned(t), n) && Agree(pages, pages', Owned(t) - Owned(t.kids[i]))
  {
    OwnedKid(t, i);
  }

  lemma UntouchedTwice(pages: Pages, mid: Pages, pages': Pages, t: Tree, n0: nat, n1: nat)
    requires Untouched(pages, mid, Owned(t), n0) && Untouched(mid, pages', {t.page}, n1) && n0 <= n1
    ensures Untouched(pages, pages', Owned(t), n0)
  {
    PageOwned(t);
  }

  lemma KidPagesGrown(t: Tree, h: nat, lo: Bound, hi: Bound, next: Link, pages: Pages, i: nat, pivot: Key, q: PageId,
                      l: Tree, r: Tree, entries: seq<Entry>, n0: nat, n1: nat)
    requires t.NodeT? && i < |t.kids| && i <= |t.keys| && h > 0
    requires Inserted(t.kids[i], h - 1, LoOf(t.keys, lo, i), HiOf(t.keys, hi, i), NextOf(t.kids, next, i), pages,
                      Some((pivot, q)), l, r, entries, n0, n1)
    ensures KidPages(WithKid(t.kids, i, l, r)) == KidPages(t.kids)[..i + 1] + [q] + KidPages(t.kids)[i + 1..]
  {
    KidPagesSplit(t.kids, i, l, r);
  }

  /** A leaf is only split with at least two entries: one too large for a page is refused instead. */
  lemma WholeLeaf(us: seq<Entry>, m: nat)
    requires us != [] && m == |us| / 2 && (|us| > 2 || LeafSize(us) > MAX_BODY) && LeafSize(us[m..]) <= MAX_BODY
    ensures 0 < m < |us|
  {
    assert us[0..] == us;
  }
}
