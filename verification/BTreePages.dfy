/** A B+tree on its pages: child and sibling pointers, page ownership, and what each step of an insert does. */
module BTreePages {
  import opened Options
  import opened Entries
  import opened BTreeShape

  datatype Node =
    | Leaf(right: Option<PageId>, entries: seq<Entry>)
    | Internal(level: nat, right: Option<PageId>, keys: seq<Key>, children: seq<PageId>)

  type Pages = map<PageId, Node>

  // ----- Pointers -----

  ghost function FirstLeaf(t: Tree): PageId {
    match t
    case LeafT(p, _) => p
    case NodeT(p, _, kids) => if kids == [] then p else FirstLeaf(kids[0])
  }

  function KidPages(kids: seq<Tree>): seq<PageId> {
    seq(|kids|, i requires 0 <= i < |kids| => kids[i].page)
  }

  /**
   * Where the sibling pointer of a subtree's last leaf goes. After a refused insert the chain may run through
   * leaves that are no longer in the tree; the pointers are then not followed.
   */
  datatype Link = To(leaf: Option<PageId>) | Unknown

  function Then(next: Link, leaf: PageId): Link {
    if next.Unknown? then Unknown else To(Some(leaf))
  }

  /** The leaf that follows child `i`. */
  ghost function NextOf(kids: seq<Tree>, next: Link, i: nat): Link
    requires i < |kids|
  {
    if i + 1 < |kids| then Then(next, FirstLeaf(kids[i + 1])) else next
  }

  predicate IsLeaf(node: Node, next: Link, es: seq<Entry>) {
    node.Leaf? && node.entries == es && (next.To? ==> node.right == next.leaf)
  }

  /** The tree is stored on `pages`, its leaves chained left to right, the last one to `next`. */
  ghost predicate Linked(t: Tree, h: nat, pages: Pages, next: Link)
    decreases h, 0
  {
    t.page in pages &&
    match t
    case LeafT(p, es) => h == 0 && IsLeaf(pages[p], next, es)
    case NodeT(p, keys, kids) =>
      h > 0 && IsInternal(pages[p], h, keys, kids) && LinkedKids(kids, h - 1, pages, next)
  }

  ghost predicate LinkedKids(kids: seq<Tree>, h: nat, pages: Pages, next: Link)
    decreases h, 1
  {
    forall i :: 0 <= i < |kids| ==> Linked(kids[i], h, pages, NextOf(kids, next, i))
  }

  predicate IsInternal(node: Node, h: nat, keys: seq<Key>, kids: seq<Tree>) {
    node.Internal? && node.level == h && node.keys == keys && node.children == KidPages(kids)
  }

  // ----- Ownership -----

  ghost function Owned(t: Tree): set<PageId> {
    match t
    case LeafT(p, _) => {p}
    case NodeT(p, _, kids) => {p} + set i, q | 0 <= i < |kids| && q in Owned(kids[i]) :: q
  }

  ghost predicate Apart(kids: seq<Tree>) {
    forall i, j :: 0 <= i < j < |kids| ==> Owned(kids[i]) !! Owned(kids[j])
  }

  /** No page is used twice. */
  ghost predicate Disjoint(t: Tree) {
    t.NodeT? ==> Apart(t.kids) && forall i :: 0 <= i < |t.kids| ==> t.page !in Owned(t.kids[i]) && Disjoint(t.kids[i])
  }

  ghost predicate Good(t: Tree, h: nat, pages: Pages, lo: Bound, hi: Bound, next: Link) {
    TreeOk(t, h, lo, hi) && Linked(t, h, pages, next) && Disjoint(t)
  }

  /** Every page of `s` is one of `was` or was allocated since. */
  ghost predicate From(s: set<PageId>, was: set<PageId>, n0: nat, n1: nat) {
    forall p :: p in s ==> p in was || n0 <= p < n1
  }

  ghost predicate AllUnder(s: set<PageId>, n: nat) {
    forall p :: p in s ==> p < n
  }

  /** Both page maps agree on `s`. */
  ghost predicate Agree(pages: Pages, pages': Pages, s: set<PageId>) {
    forall p :: p in s && p in pages ==> p in pages' && pages'[p] == pages[p]
  }

  lemma {:induction false} LinkedFrame(t: Tree, h: nat, pages: Pages, pages': Pages, next: Link)
    requires Linked(t, h, pages, next) && Agree(pages, pages', Owned(t))
    ensures Linked(t, h, pages', next)
    decreases h
  {
    if t.NodeT? {
      forall i | 0 <= i < |t.kids| ensures Linked(t.kids[i], h - 1, pages', NextOf(t.kids, next, i)) {
        assert Owned(t.kids[i]) <= Owned(t);
        LinkedFrame(t.kids[i], h - 1, pages, pages', NextOf(t.kids, next, i));
      }
    }
  }

  /** A tree whose chain is in order is a tree. */
  lemma {:induction false} LinkedUnknown(t: Tree, h: nat, pages: Pages, next: Link)
    requires Linked(t, h, pages, next)
    ensures Linked(t, h, pages, Unknown)
    decreases h
  {
    if t.NodeT? {
      forall i | 0 <= i < |t.kids| ensures Linked(t.kids[i], h - 1, pages, NextOf(t.kids, Unknown, i)) {
        LinkedUnknown(t.kids[i], h - 1, pages, NextOf(t.kids, next, i));
      }
    }
  }

  lemma OwnedKid(t: Tree, i: nat)
    requires t.NodeT? && i < |t.kids|
    ensures Owned(t.kids[i]) <= Owned(t)
  {
  }

  lemma {:induction false} PageOwned(t: Tree)
    ensures t.page in Owned(t)
  {
  }

  // ----- A child is replaced -----

  /** The facts about a changed child that its parent relies on. */
  ghost predicate Renewed(kid: Tree, was: Tree, n0: nat, n1: nat) {
    kid.page == was.page && FirstLeaf(kid) == FirstLeaf(was) && From(Owned(kid), Owned(was), n0, n1)
  }

  /** The children other than `i` are where they were. */
  lemma OtherKid(t: Tree, h: nat, pages: Pages, pages': Pages, next: Link, i: nat, j: nat)
    requires t.NodeT? && Linked(t, h, pages, next) && Disjoint(t) && i < |t.kids| && j < |t.kids| && j != i
    requires Agree(pages, pages', Owned(t) - Owned(t.kids[i]))
    ensures Linked(t.kids[j], h - 1, pages', NextOf(t.kids, next, j))
  {
    OwnedKid(t, j);
    assert Owned(t.kids[j]) !! Owned(t.kids[i]);
    assert Linked(t.kids[j], h - 1, pages, NextOf(t.kids, next, j));
    hide Linked, Owned;
    LinkedFrame(t.kids[j], h - 1, pages, pages', NextOf(t.kids, next, j));
  }

  lemma NodeKept(t: Tree, h: nat, pages: Pages, pages': Pages, next: Link, i: nat)
    requires t.NodeT? && Linked(t, h, pages, next) && Disjoint(t) && i < |t.kids|
    requires Agree(pages, pages', Owned(t) - Owned(t.kids[i]))
    ensures h > 0 && t.page in pages' && IsInternal(pages'[t.page], h, t.keys, t.kids)
  {
    PageOwned(t);
  }

  lemma NodeLinks(t: Tree, h: nat, pages: Pages, next: Link)
    requires t.NodeT? && h > 0 && t.page in pages && IsInternal(pages[t.page], h, t.keys, t.kids)
    requires LinkedKids(t.kids, h - 1, pages, next)
    ensures Linked(t, h, pages, next)
  {
  }

  lemma SameKidNext(kids: seq<Tree>, i: nat, kid: Tree, next: Link, j: nat)
    requires i < |kids| && j < |kids| && FirstLeaf(kid) == FirstLeaf(kids[i])
    ensures NextOf(kids[i := kid], next, j) == NextOf(kids, next, j)
  {
  }

  lemma SameKidLinked(t: Tree, h: nat, pages: Pages, pages': Pages, next: Link, i: nat, kid: Tree, n0: nat, n1: nat)
    requires t.NodeT? && Linked(t, h, pages, next) && Disjoint(t) && i < |t.kids|
    requires Linked(kid, h - 1, pages', NextOf(t.kids, next, i)) && Renewed(kid, t.kids[i], n0, n1)
    requires Agree(pages, pages', Owned(t) - Owned(t.kids[i]))
    ensures Linked(t.(kids := t.kids[i := kid]), h, pages', next)
    ensures FirstLeaf(t.(kids := t.kids[i := kid])) == FirstLeaf(t)
  {
    var kids := t.kids[i := kid];
    assert KidPages(kids) == KidPages(t.kids);
    NodeKept(t, h, pages, pages', next, i);
    assert FirstLeaf(t.(kids := kids)) == FirstLeaf(t);
    hide Linked, Owned, Disjoint, NextOf, From, Agree, FirstLeaf, KidPages;
    forall j | 0 <= j < |kids| ensures Linked(kids[j], h - 1, pages', NextOf(kids, next, j)) {
      SameKidNext(t.kids, i, kid, next, j);
      if j != i { OtherKid(t, h, pages, pages', next, i, j); }
    }
    NodeLinks(t.(kids := kids), h, pages', next);
  }

  lemma SameKidDisjoint(t: Tree, i: nat, kid: Tree, n0: nat, n1: nat)
    requires t.NodeT? && Disjoint(t) && i < |t.kids| && AllUnder(Owned(t), n0)
    requires Disjoint(kid) && Renewed(kid, t.kids[i], n0, n1)
    ensures Disjoint(t.(kids := t.kids[i := kid]))
    ensures From(Owned(t.(kids := t.kids[i := kid])), Owned(t), n0, n1)
  {
    var kids := t.kids[i := kid];
    PageOwned(t);
    forall j | 0 <= j < |t.kids| ensures Owned(t.kids[j]) <= Owned(t) {
      OwnedKid(t, j);
    }
    hide FirstLeaf;
    assert t.page !in Owned(kid);
    forall j | 0 <= j < |kids| && j != i ensures Owned(kids[j]) !! Owned(kid) {
      assert Owned(t.kids[j]) !! Owned(t.kids[i]);
    }
  }

  // ----- A child is split -----

  ghost predicate RenewedPair(l: Tree, r: Tree, was: Tree, n0: nat, n1: nat) {
    && Renewed(l, was, n0, n1) && From(Owned(r), Owned(was), n0, n1) && Owned(l) !! Owned(r)
  }

  lemma SplitKidNext(kids: seq<Tree>, i: nat, l: Tree, r: Tree, next: Link, j: nat)
    requires i < |kids| && j <= |kids| && FirstLeaf(l) == FirstLeaf(kids[i])
    ensures var kids' := WithKid(kids, i, l, r);
      && |kids'| == |kids| + 1
      && kids'[j] == (if j == i then l else if j == i + 1 then r else kids[if j < i then j else j - 1])
      && NextOf(kids', next, j) ==
           if j == i then Then(next, FirstLeaf(r)) else NextOf(kids, next, if j < i then j else j - 1)
  {
  }

  lemma SplitKidLinked(t: Tree, h: nat, pages: Pages, pages': Pages, next: Link, i: nat, l: Tree, r: Tree, n0: nat,
                       n1: nat)
    requires t.NodeT? && Linked(t, h, pages, next) && Disjoint(t) && i < |t.kids|
    requires Linked(l, h - 1, pages', Then(next, FirstLeaf(r))) && Linked(r, h - 1, pages', NextOf(t.kids, next, i))
    requires RenewedPair(l, r, t.kids[i], n0, n1)
    requires Agree(pages, pages', Owned(t) - Owned(t.kids[i]))
    ensures LinkedKids(WithKid(t.kids, i, l, r), h - 1, pages', next)
    ensures FirstLeaf(WithKid(t.kids, i, l, r)[0]) == FirstLeaf(t)
  {
    var kids := WithKid(t.kids, i, l, r);
    assert |kids| == |t.kids| + 1 && FirstLeaf(kids[0]) == FirstLeaf(t);
    hide Linked, Owned, Disjoint, WithKid, NextOf, FirstLeaf, From, Agree, Then;
    forall j | 0 <= j < |kids| ensures Linked(kids[j], h - 1, pages', NextOf(kids, next, j)) {
      SplitKidNext(t.kids, i, l, r, next, j);
      if j != i && j != i + 1 {
        OtherKid(t, h, pages, pages', next, i, if j < i then j else j - 1);
      }
    }
  }

  lemma SplitKidAt(t: Tree, i: nat, l: Tree, r: Tree, n0: nat, n1: nat, j: nat)
    requires t.NodeT? && Disjoint(t) && i < |t.kids| && AllUnder(Owned(t), n0) && j <= |t.kids|
    requires Disjoint(l) && Disjoint(r) && RenewedPair(l, r, t.kids[i], n0, n1)
    ensures var kid := WithKid(t.kids, i, l, r)[j];
      t.page !in Owned(kid) && Disjoint(kid) && From(Owned(kid), Owned(t.kids[if j <= i then j else j - 1]), n0, n1)
      && From(Owned(kid), Owned(t), n0, n1)
  {
    PageOwned(t);
    OwnedKid(t, if j <= i then j else j - 1);
    hide FirstLeaf, Owned;
  }

  lemma SplitKidDisjoint(t: Tree, i: nat, keys: seq<Key>, l: Tree, r: Tree, n0: nat, n1: nat)
    requires t.NodeT? && Disjoint(t) && i < |t.kids| && AllUnder(Owned(t), n0)
    requires Disjoint(l) && Disjoint(r) && RenewedPair(l, r, t.kids[i], n0, n1)
    ensures Disjoint(NodeT(t.page, keys, WithKid(t.kids, i, l, r)))
    ensures From(Owned(NodeT(t.page, keys, WithKid(t.kids, i, l, r))), Owned(t), n0, n1)
  {
    var kids := WithKid(t.kids, i, l, r);
    PageOwned(t);
    forall j | 0 <= j < |kids|
      ensures t.page !in Owned(kids[j]) && Disjoint(kids[j]) && From(Owned(kids[j]), Owned(t), n0, n1)
    {
      SplitKidAt(t, i, l, r, n0, n1, j);
    }
    forall a, b | 0 <= a < b < |kids| ensures Owned(kids[a]) !! Owned(kids[b]) {
      SplitKidApart(t, i, l, r, n0, n1, a, b);
    }
    hide WithKid;
  }

  lemma SplitKidApart(t: Tree, i: nat, l: Tree, r: Tree, n0: nat, n1: nat, a: nat, b: nat)
    requires t.NodeT? && Disjoint(t) && i < |t.kids| && AllUnder(Owned(t), n0) && a < b <= |t.kids|
    requires RenewedPair(l, r, t.kids[i], n0, n1)
    ensures Owned(WithKid(t.kids, i, l, r)[a]) !! Owned(WithKid(t.kids, i, l, r)[b])
  {
    var ka, kb := if a <= i then a else a - 1, if b <= i then b else b - 1;
    OwnedKid(t, ka);
    OwnedKid(t, kb);
    KidOrHalf(t.kids, i, l, r, a);
    KidOrHalf(t.kids, i, l, r, b);
    hide FirstLeaf, Owned, WithKid, Disjoint;
    if ka < kb {
      KidsApart(t, ka, kb);
      Separate(Owned(t.kids[ka]), Owned(t.kids[kb]), Owned(t), n0);
    }
  }

  lemma KidOrHalf(kids: seq<Tree>, i: nat, l: Tree, r: Tree, j: nat)
    requires i < |kids| && j <= |kids|
    ensures WithKid(kids, i, l, r)[j] ==
      if j < i then kids[j] else if j == i then l else if j == i + 1 then r else kids[j - 1]
  {
  }

  lemma KidsApart(t: Tree, a: nat, b: nat)
    requires t.NodeT? && Disjoint(t) && a < b < |t.kids|
    ensures Owned(t.kids[a]) !! Owned(t.kids[b])
  {
  }

  /** Old pages are below `n0` and new ones are not, so disjoint parts stay disjoint when one of them grows. */
  lemma Separate(a: set<PageId>, b: set<PageId>, all: set<PageId>, n0: nat)
    requires a !! b && a <= all && b <= all && AllUnder(all, n0)
    ensures forall c: set<PageId>, n1: nat :: From(c, a, n0, n1) ==> c !! b
    ensures forall c: set<PageId>, n1: nat :: From(c, b, n0, n1) ==> a !! c
  {
  }

  lemma KidPagesSplit(kids: seq<Tree>, i: nat, l: Tree, r: Tree)
    requires i < |kids| && l.page == kids[i].page
    ensures KidPages(WithKid(kids, i, l, r)) == KidPages(kids)[..i + 1] + [r.page] + KidPages(kids)[i + 1..]
  {
  }

  // ----- A node is cut in two -----

  lemma CutKids(kids: seq<Tree>, h: nat, pages: Pages, next: Link, m: nat)
    requires LinkedKids(kids, h, pages, next) && 0 < m < |kids|
    ensures LinkedKids(kids[..m], h, pages, Then(next, FirstLeaf(kids[m]))) && LinkedKids(kids[m..], h, pages, next)
    ensures KidPages(kids[..m]) == KidPages(kids)[..m] && KidPages(kids[m..]) == KidPages(kids)[m..]
  {
    forall i | 0 <= i < m ensures Linked(kids[..m][i], h, pages, NextOf(kids[..m], Then(next, FirstLeaf(kids[m])), i)) {
      assert Linked(kids[i], h, pages, NextOf(kids, next, i));
    }
    forall i | 0 <= i < |kids| - m ensures Linked(kids[m..][i], h, pages, NextOf(kids[m..], next, i)) {
      assert Linked(kids[i + m], h, pages, NextOf(kids, next, i + m));
    }
  }

  lemma CutDisjoint(t: Tree, m: nat, lk: seq<Key>, rk: seq<Key>, q: PageId)
    requires t.NodeT? && Disjoint(t) && 0 < m < |t.kids| && q !in Owned(t)
    ensures var l, r := NodeT(t.page, lk, t.kids[..m]), NodeT(q, rk, t.kids[m..]);
      Disjoint(l) && Disjoint(r) && Owned(l) !! Owned(r) && Owned(l) <= Owned(t) && Owned(r) <= Owned(t) + {q}
  {
    var l, r := NodeT(t.page, lk, t.kids[..m]), NodeT(q, rk, t.kids[m..]);
    PageOwned(t);
    forall i | 0 <= i < |t.kids|
      ensures Owned(t.kids[i]) <= Owned(t) && t.page !in Owned(t.kids[i]) && Disjoint(t.kids[i])
    {
      OwnedKid(t, i);
    }
    forall i, j | 0 <= i < m && 0 <= j < |t.kids| - m ensures Owned(l.kids[i]) !! Owned(r.kids[j]) {
      assert Owned(t.kids[i]) !! Owned(t.kids[m + j]);
    }
    assert Owned(r) <= Owned(t) + {q};
    assert Owned(l) !! Owned(r);
  }
}
