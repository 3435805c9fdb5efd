/** Inserts the B+tree refuses because a node would outgrow its page, and what they cost. */
module BTreeRefusal {
  import opened Options
  import opened Entries
  import opened RecordHeader
  import opened BTreeShape
  import opened BTreePages
  import opened BTreeList
  import opened BTreeSize
  import opened BTree

  // ----- What is forgotten -----

  ghost function KeysOf(es: seq<Entry>): set<Key> {
    set e | e in es :: e.key
  }

  /** A list without one run of its entries binds what it bound before, less the keys of the run. */
  lemma CutForgets(us: seq<Entry>, cs: seq<Entry>) returns (gone: set<Key>)
    requires Sorted(us) && Cut(us, cs)
    ensures Sorted(cs) && gone <= KeysOf(us)
    ensures forall k :: Find(cs, k) == if k in gone then None else Find(us, k)
  {
    var i, j :| 0 <= i <= j <= |us| && cs == us[..i] + us[j..];
    gone := KeysOf(us[i..j]);
    assert forall n :: 0 <= n < |cs| ==> cs[n] == us[if n < i then n else n + (j - i)];
    hide Lt;
    forall k ensures Find(cs, k) == if k in gone then None else Find(us, k) {
      CutFinds(us, cs, i, j, k);
    }
  }

  lemma CutFinds(us: seq<Entry>, cs: seq<Entry>, i: nat, j: nat, k: Key)
    requires Sorted(us) && Sorted(cs) && i <= j <= |us| && cs == us[..i] + us[j..]
    ensures Find(cs, k) == if k in KeysOf(us[i..j]) then None else Find(us, k)
  {
    FindHas(us, k);
    FindHas(cs, k);
    FindIs(us, k);
    FindIs(cs, k);
    forall rid ensures Has(us, k, rid) <==> Has(cs, k, rid) || Entry(k, rid) in us[i..j] {
      InSomePart(us, i, j, Entry(k, rid));
    }
    hide Lt, Find, Sorted;
    if k in KeysOf(us[i..j]) {
      var e :| e in us[i..j] && e.key == k;
      InOnePart(us, i, j, e);
      assert Has(us, k, e.rid) && !Has(cs, k, e.rid);
    }
  }

  lemma FindHas(es: seq<Entry>, k: Key)
    ensures Find(es, k).Some? ==> Has(es, k, Find(es, k).value)
  {
  }

  lemma InOnePart(us: seq<Entry>, i: nat, j: nat, e: Entry)
    requires Sorted(us) && i <= j <= |us| && e in us[i..j]
    ensures e !in us[..i] + us[j..]
  {
    var n :| i <= n < j && us[n] == e;
    forall m | 0 <= m < i || j <= m < |us| ensures us[m] != e {
      LtTrichotomy(us[m].key, us[n].key);
    }
  }

  lemma InSomePart(us: seq<Entry>, i: nat, j: nat, e: Entry)
    requires i <= j <= |us|
    ensures e in us <==> e in us[..i] + us[j..] || e in us[i..j]
  {
    assert us == us[..i] + us[i..j] + us[j..];
  }

  // ----- A key that is lost -----

  /** Fits a leaf of its own, but not a node as its only separator. */
  const HUGE: Key := seq(8130, _ => 1)
  const TINY: Key := [0]

  lemma HugeSizes(a: RecordId, b: RecordId)
    ensures LeafSize([Entry(HUGE, a)]) == 8156 && LeafSize([Entry(TINY, b)]) == 27
    ensures LeafSize([Entry(TINY, b), Entry(HUGE, a)]) > MAX_BODY && InternalSize([HUGE], 2) > MAX_BODY
  {
    EntryBytesOne(Entry(HUGE, a));
    EntryBytesOne(Entry(TINY, b));
    EntryBytesApp([Entry(TINY, b)], [Entry(HUGE, a)]);
    assert [Entry(TINY, b)] + [Entry(HUGE, a)] == [Entry(TINY, b), Entry(HUGE, a)];
    var one: seq<Key> := [HUGE];
    assert one[..0] == [] && KeyBytes(one) == 4 + |HUGE|;
  }

  lemma HugeUpserts(a: RecordId, b: RecordId)
    ensures Upsert([], HUGE, a) == [Entry(HUGE, a)]
    ensures Upsert([Entry(HUGE, a)], TINY, b) == [Entry(TINY, b), Entry(HUGE, a)]
    ensures Find([Entry(TINY, b)], HUGE) == None && Find([Entry(HUGE, a)], HUGE) == Some(a)
  {
    assert Lt(TINY, HUGE) && !Lt(HUGE, TINY);
    LtTrichotomy(HUGE, HUGE);
    PosIs([Entry(HUGE, a)], TINY, 0);
    PosIs([Entry(TINY, b)], HUGE, 1);
    PosIs([Entry(HUGE, a)], HUGE, 0);
  }

  /** A refused insert of another key loses a key that was there: it was found before, and is not found after. */
  method RefusedInsertLosesKey(order: nat, root: PageId, a: RecordId, b: RecordId)
    returns (first: bool, second: bool, before: Option<RecordId>, after: Option<RecordId>)
    ensures first && !second && before == Some(a) && after == None
  {
    hide Lt, Upsert, Find, EntryBytes, KeyBytes, HUGE, TINY, LeafSize, InternalSize;
    HugeSizes(a, b);
    HugeUpserts(a, b);
    var tree := new BTree(order, root);
    first := tree.Insert(HUGE, a);
    before := tree.Search(HUGE);
    var us := [Entry(TINY, b), Entry(HUGE, a)];
    assert us[..1] == [Entry(TINY, b)] && us[1..] == [Entry(HUGE, a)];
    second := tree.Insert(TINY, b);
    after := tree.Search(HUGE);
  }

  const PAST: Key := [2]

  lemma HugeWalk(pages: Pages, root: PageId, q: PageId, a: RecordId, b: RecordId)
    requires root in pages && pages[root] == Leaf(Some(q), [Entry(TINY, b)])
    requires q in pages && pages[q] == Leaf(None, [Entry(HUGE, a)])
    ensures Walk([root, q], pages, TINY, PAST) == [Entry(TINY, b), Entry(HUGE, a)]
  {
    assert Lt(TINY, PAST) && Lt(TINY, HUGE) && Lt(HUGE, PAST);
    LtTrichotomy(TINY, PAST);
    LtTrichotomy(HUGE, PAST);
    LtTrichotomy(TINY, HUGE);
    LtTrichotomy(TINY, TINY);
    var x, y := [Entry(TINY, b)], [Entry(HUGE, a)];
    hide Lt, TINY, HUGE, PAST;
    OneInRange(x[0], TINY, PAST);
    OneInRange(y[0], TINY, PAST);
    var list := [root, q];
    WalkStep(list, pages, TINY, PAST, 0);
    WalkStep(list, pages, TINY, PAST, 1);
    assert list[0..] == list && list[2..] == [];
    assert x + y == [Entry(TINY, b), Entry(HUGE, a)];
  }

  lemma OneInRange(e: Entry, start: Key, end: Key)
    requires Le(start, e.key) && Lt(e.key, end)
    ensures Stop([e], end) == 1 && Slice([e][..1], start, end) == [e]
  {
    LtTrichotomy(e.key, end);
    var es := [e];
    assert es[..1] == es && es[1..] == [] && es[..0] == [];
    assert Stop(es[1..], end) == 0;
    assert Slice(es[..0], start, end) == [];
  }

  /** After that insert a range scan still returns the key that a search no longer finds. */
  method RangeFindsLostKey(order: nat, root: PageId, a: RecordId, b: RecordId)
    returns (found: Option<RecordId>, out: seq<Entry>)
    ensures found == None && out == [Entry(TINY, b), Entry(HUGE, a)]
  {
    hide Lt, Upsert, Find, EntryBytes, KeyBytes, HUGE, TINY, LeafSize, InternalSize, Walk, Offered;
    HugeSizes(a, b);
    HugeUpserts(a, b);
    var tree := new BTree(order, root);
    var first := tree.Insert(HUGE, a);
    var us := [Entry(TINY, b), Entry(HUGE, a)];
    assert us[..1] == [Entry(TINY, b)] && us[1..] == [Entry(HUGE, a)];
    ghost var q := tree.nextPage;
    var second := tree.Insert(TINY, b);
    found := tree.Search(HUGE);
    HugeWalk(tree.pages, root, q, a, b);
    assert tree.list == [root, q] && tree.list[0..] == tree.list;
    assert LeafFor(tree.tree, TINY) == tree.tree && At(tree.list, root) == 0;
    out := tree.Range(TINY, PAST);
  }

  // ----- Keys of up to 1024 bytes -----

  function LongKey(i: nat): Key
    requires i < 256
  {
    [i] + seq(1023, _ => 0)
  }

  /** Seven keys of one byte and `n` of 1024. */
  function MixedLeaf(n: nat, rid: RecordId): seq<Entry>
    requires n < 100
  {
    seq(7, i requires 0 <= i < 7 => Entry([i], rid)) + seq(n, i requires 0 <= i < n => Entry(LongKey(100 + i), rid))
  }

  lemma {:induction false} EvenBytes(es: seq<Entry>, n: nat)
    requires forall i :: 0 <= i < |es| ==> |es[i].key| == n
    ensures EntryBytes(es) == |es| * (14 + n)
  {
    if es != [] { EvenBytes(es[..|es| - 1], n); }
  }

  lemma {:induction false} EvenKeyBytes(keys: seq<Key>, n: nat)
    requires forall i :: 0 <= i < |keys| ==> |keys[i]| == n
    ensures KeyBytes(keys) == |keys| * (4 + n)
  {
    if keys != [] { EvenKeyBytes(keys[..|keys| - 1], n); }
  }

  /**
   * With keys of up to 1024 bytes a leaf that fits its page can be refused one more: the split is by count,
   * and the half with the long keys is over the limit.
   */
  lemma LongKeysOverflowLeaf(rid: RecordId, order: nat)
    ensures var es, key := MixedLeaf(7, rid), LongKey(107);
      && Sorted(es) && LeafSize(es) <= MAX_BODY
      && !LeafHolds(Upsert(es, key, rid), order) && !HalvesHold(Upsert(es, key, rid))
  {
    MixedOrder(rid);
    MixedBytes(7, rid);
    MixedBytes(8, rid);
    hide Upsert, MixedLeaf, LongKey, EntryBytes, Lt;
  }

  lemma MixedOrder(rid: RecordId)
    ensures Sorted(MixedLeaf(7, rid)) && Upsert(MixedLeaf(7, rid), LongKey(107), rid) == MixedLeaf(8, rid)
  {
    var es, key, us := MixedLeaf(7, rid), LongKey(107), MixedLeaf(8, rid);
    assert es == us[..14] && us == es + [Entry(key, rid)];
    forall i | 0 <= i < 14 ensures Lt(es[i].key, key) {
    }
    PosIs(es, key, 14);
  }

  lemma MixedBytes(n: nat, rid: RecordId)
    requires n < 100
    ensures var es := MixedLeaf(n, rid);
      |es| == 7 + n && LeafSize(es) == 12 + 7 * 15 + n * 1038 && LeafSize(es[7..]) == 12 + n * 1038
  {
    var es := MixedLeaf(n, rid);
    EvenBytes(es[..7], 1);
    EvenBytes(es[7..], 1024);
    assert es == es[..7] + es[7..];
    EntryBytesApp(es[..7], es[7..]);
  }

  /** Ten separators of one byte and `n` of 1024. */
  function MixedKeys(n: nat): seq<Key>
    requires n < 100
  {
    seq(10, i requires 0 <= i < 10 => [i]) + seq(n, i requires 0 <= i < n => LongKey(100 + i))
  }

  /** Likewise a node that fits can fail to take in one more separator, after its child has been split. */
  lemma LongKeysOverflowNode(order: nat)
    ensures var keys, more := MixedKeys(7), MixedKeys(8);
      && KeysOk(keys, None, None) && InternalSize(keys, |keys| + 1) <= MAX_BODY
      && more == keys + [LongKey(107)] && KeysOk(more, None, None)
      && !NodeHolds(more, order) && !NodeHalvesHold(more)
  {
    var keys, more := MixedKeys(7), MixedKeys(8);
    assert forall i, j :: 0 <= i < j < |more| ==> Lt(more[i], more[j]);
    assert more == keys + [LongKey(107)] && keys == more[..17];
    hide Lt, LongKey;
    EvenKeyBytes(keys[..10], 1);
    EvenKeyBytes(keys[10..], 1024);
    assert keys == keys[..10] + keys[10..];
    KeyBytesApp(keys[..10], keys[10..]);
    EvenKeyBytes(more[10..], 1024);
    EvenKeyBytes(more[..10], 1);
    assert more == more[..10] + more[10..];
    KeyBytesApp(more[..10], more[10..]);
  }
}
