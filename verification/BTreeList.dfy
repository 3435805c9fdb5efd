/**
 * The leaves of a B+tree along their right-sibling pointers. After a refused insert this list has leaves that the
 * tree has lost; it is still a list, and a range scan still walks it.
 */
module BTreeList {
  import opened Options
  import opened Entries
  import opened BTreeShape
  import opened BTreePages

  /** Pages are numbered below `n`; those of `list` are leaves, each pointing to the next. */
  ghost predicate Listed(list: seq<PageId>, pages: Pages, n: nat) {
    && (forall p :: p in pages ==> p < n) && Distinct(list)
    && (forall i :: 0 <= i < |list| ==> Points(list, pages, i))
  }

  ghost predicate Distinct(list: seq<PageId>) {
    forall i, j :: 0 <= i < j < |list| ==> list[i] != list[j]
  }

  predicate Points(list: seq<PageId>, pages: Pages, i: nat)
    requires i < |list|
  {
    && list[i] in pages && pages[list[i]].Leaf?
    && pages[list[i]].right == if i + 1 < |list| then Some(list[i + 1]) else None
  }

  /** Every leaf page of `s` is on the list. */
  ghost predicate Covers(list: seq<PageId>, pages: Pages, s: set<PageId>) {
    forall p :: p in s && p in pages && pages[p].Leaf? ==> p in list
  }

  /** The list has grown by new pages only; by all the new leaf pages, if `whole`. No old page has become a leaf. */
  ghost predicate Relisted(list: seq<PageId>, pages: Pages, list': seq<PageId>, pages': Pages, n0: nat, n1: nat,
                           whole: bool) {
    && Listed(list', pages', n1) && (list != [] ==> list' != [] && list'[0] == list[0])
    && (forall p :: p in list ==> p in list') && (forall p :: p in list' ==> p in list || n0 <= p)
    && (forall p :: p in pages' && pages'[p].Leaf? && p < n0 ==> p in pages && pages[p].Leaf?)
    && (whole ==> forall p :: p in pages' && pages'[p].Leaf? && n0 <= p ==> p in list')
  }

  lemma RelistedAny(list: seq<PageId>, pages: Pages, list': seq<PageId>, pages': Pages, n0: nat, n1: nat, whole: bool)
    requires Relisted(list, pages, list', pages', n0, n1, true)
    ensures Relisted(list, pages, list', pages', n0, n1, whole)
  {
  }

  /** The new list covers a subtree made of old pages and new ones. */
  lemma StillCovers(list: seq<PageId>, pages: Pages, list': seq<PageId>, pages': Pages, n0: nat, n1: nat, whole: bool,
                    was: set<PageId>, now: set<PageId>)
    requires Relisted(list, pages, list', pages', n0, n1, whole) && Covers(list, pages, was) && AllUnder(was, n0)
    requires (whole && From(now, was, n0, n1)) || now == was
    ensures Covers(list', pages', now)
  {
  }

  function At(list: seq<PageId>, p: PageId): (i: nat)
    requires p in list
    ensures i < |list| && list[i] == p
  {
    if list[0] == p then 0 else 1 + At(list[1..], p)
  }

  /** The list where no page of it is written. */
  lemma ListFrame(list: seq<PageId>, pages: Pages, pages': Pages, n: nat, n': nat)
    requires Listed(list, pages, n) && n <= n' && forall p :: p in pages' ==> p < n'
    requires forall p :: p in list && p in pages ==> p in pages' && pages'[p] == pages[p]
    ensures Listed(list, pages', n')
  {
    forall i: nat | i < |list| ensures Points(list, pages', i) {
      assert Points(list, pages, i);
    }
  }

  lemma OnList(list: seq<PageId>, pages: Pages, n: nat, p: PageId)
    requires Listed(list, pages, n) && p in list
    ensures p in pages && pages[p].Leaf? && p < n
  {
    assert Points(list, pages, At(list, p));
  }

  /** A leaf is written back with the sibling it has. */
  lemma ListKept(list: seq<PageId>, pages: Pages, p: PageId, es: seq<Entry>, n: nat)
    requires Listed(list, pages, n) && p in list && p in pages && pages[p].Leaf?
    ensures Listed(list, pages[p := Leaf(pages[p].right, es)], n)
  {
    var pages' := pages[p := Leaf(pages[p].right, es)];
    forall i: nat | i < |list| ensures Points(list, pages', i) {
      assert Points(list, pages, i);
    }
  }

  function WithPage(list: seq<PageId>, i: nat, q: PageId): (list': seq<PageId>)
    requires 0 < i <= |list|
    ensures |list'| == |list| + 1 && list'[0] == list[0]
    ensures forall k :: 0 <= k < |list'| ==> list'[k] == if k < i then list[k] else if k == i then q else list[k - 1]
  {
    list[..i] + [q] + list[i..]
  }

  /** A leaf is split: its new sibling comes right after it. */
  lemma ListSplit(list: seq<PageId>, pages: Pages, p: PageId, q: PageId, left: seq<Entry>, right: seq<Entry>)
    requires Listed(list, pages, q) && p in list && p in pages && pages[p].Leaf?
    ensures Relisted(list, pages, WithPage(list, At(list, p) + 1, q),
                     pages[q := Leaf(pages[p].right, right)][p := Leaf(Some(q), left)], q, q + 1, true)
  {
    hide At;
    var i := At(list, p) + 1;
    var list', pages' := WithPage(list, i, q), pages[q := Leaf(pages[p].right, right)][p := Leaf(Some(q), left)];
    forall k: nat | k < |list'| ensures Points(list', pages', k) {
      PointsAfter(list, pages, p, q, left, right, i, k);
    }
    WithPageHas(list, i, q);
    forall r | r in list ensures r != q { OnList(list, pages, q, r); }
    WithPageDistinct(list, i, q);
    hide WithPage, Points;
  }

  lemma WithPageHas(list: seq<PageId>, i: nat, q: PageId)
    requires 0 < i <= |list|
    ensures forall r :: r in WithPage(list, i, q) <==> r in list || r == q
  {
    var list' := WithPage(list, i, q);
    forall k | 0 <= k < |list| ensures list[k] in list' {
      assert list[k] == list'[if k < i then k else k + 1];
    }
    assert list'[i] == q;
  }

  lemma WithPageDistinct(list: seq<PageId>, i: nat, q: PageId)
    requires 0 < i <= |list| && q !in list && Distinct(list)
    ensures Distinct(WithPage(list, i, q))
  {
  }

  lemma PointsAfter(list: seq<PageId>, pages: Pages, p: PageId, q: PageId, left: seq<Entry>, right: seq<Entry>, i: nat,
                k: nat)
    requires Listed(list, pages, q) && p in pages && pages[p].Leaf? && 0 < i <= |list| && list[i - 1] == p
    requires k <= |list|
    ensures Points(WithPage(list, i, q), pages[q := Leaf(pages[p].right, right)][p := Leaf(Some(q), left)], k)
  {
    if k < |list| { assert Points(list, pages, k); }
    if k > 0 { assert Points(list, pages, k - 1); }
    assert Points(list, pages, i - 1);
  }

  /** The first leaf moves to page `p`, and its old page becomes a node. */
  lemma ListMoved(list: seq<PageId>, pages: Pages, p: PageId, node: Node)
    requires Listed(list, pages, p) && list != [] && list[0] in pages && node.Internal?
    ensures Listed(list[0 := p], pages[p := pages[list[0]]][list[0] := node], p + 1)
  {
    var list', pages' := list[0 := p], pages[p := pages[list[0]]][list[0] := node];
    forall k | 0 <= k < |list'| ensures Points(list', pages', k) {
      assert Points(list, pages, k);
      if k > 0 { assert list[0] != list[k] && list[k] != p; }
    }
    forall j, k | 0 <= j < k < |list'| ensures list'[j] != list'[k] {
      assert list[j] != list[k] && Points(list, pages, k);
    }
    assert Points(list, pages, 0);
  }

  // ----- Walking the list -----

  /** The first entry at or past `end`. */
  function Stop(es: seq<Entry>, end: Key): (e: nat)
    ensures e <= |es| && (forall i :: 0 <= i < e ==> !Le(end, es[i].key)) && (e < |es| ==> Le(end, es[e].key))
  {
    if es == [] || Le(end, es[0].key) then 0 else 1 + Stop(es[1..], end)
  }

  /** What `range` collects along the list: each leaf's entries in range, up to the first entry past the end. */
  function Walk(list: seq<PageId>, pages: Pages, start: Key, end: Key): seq<Entry> {
    if list == [] || list[0] !in pages || !pages[list[0]].Leaf? then []
    else
      var es := pages[list[0]].entries;
      var e := Stop(es, end);
      Slice(es[..e], start, end) + if e < |es| then [] else Walk(list[1..], pages, start, end)
  }

  lemma WalkStep(list: seq<PageId>, pages: Pages, start: Key, end: Key, k: nat)
    requires k < |list| && list[k] in pages && pages[list[k]].Leaf?
    ensures var es := pages[list[k]].entries;
      Walk(list[k..], pages, start, end) ==
      Slice(es[..Stop(es, end)], start, end)
        + if Stop(es, end) < |es| then [] else Walk(list[k + 1..], pages, start, end)
  {
    assert list[k..][1..] == list[k + 1..];
  }
}
