/** Node sizes: splits go by entry count, yet with keys of at most 256 bytes both halves always fit a page. */
module BTreeSize {
  import opened Entries
  import opened RecordHeader
  import opened BTreePages

  const MAX_BODY: nat := 8160
  const MAX_KEY: nat := 256

  function EntryBytes(es: seq<Entry>): nat {
    if es == [] then 0 else EntryBytes(es[..|es| - 1]) + 4 + |es[|es| - 1].key| + 10
  }

  function KeyBytes(keys: seq<Key>): nat {
    if keys == [] then 0 else KeyBytes(keys[..|keys| - 1]) + 4 + |keys[|keys| - 1]|
  }

  function LeafSize(es: seq<Entry>): nat { 8 + 4 + EntryBytes(es) }

  function InternalSize(keys: seq<Key>, children: nat): nat { 2 + 8 + 4 + children * 8 + KeyBytes(keys) }

  function Size(node: Node): nat {
    match node
    case Leaf(_, es) => LeafSize(es)
    case Internal(_, _, keys, children) => InternalSize(keys, |children|)
  }

  ghost predicate ShortEntries(es: seq<Entry>) {
    forall i :: 0 <= i < |es| ==> |es[i].key| <= MAX_KEY
  }

  ghost predicate ShortKeys(keys: seq<Key>) {
    forall i :: 0 <= i < |keys| ==> |keys[i]| <= MAX_KEY
  }

  ghost predicate Short(node: Node) {
    match node
    case Leaf(_, es) => ShortEntries(es)
    case Internal(_, _, keys, children) => ShortKeys(keys) && |children| == |keys| + 1
  }

  lemma {:induction false} EntryBytesApp(a: seq<Entry>, b: seq<Entry>)
    ensures EntryBytes(a + b) == EntryBytes(a) + EntryBytes(b)
  {
    if b == [] {
      assert a + b == a;
    } else {
      var n := |b| - 1;
      EntryBytesApp(a, b[..n]);
      assert (a + b)[..|a| + n] == a + b[..n];
    }
  }

  lemma {:induction false} KeyBytesApp(a: seq<Key>, b: seq<Key>)
    ensures KeyBytes(a + b) == KeyBytes(a) + KeyBytes(b)
  {
    if b == [] {
      assert a + b == a;
    } else {
      var n := |b| - 1;
      KeyBytesApp(a, b[..n]);
      assert (a + b)[..|a| + n] == a + b[..n];
    }
  }

  lemma {:induction false} EntryBytesBound(es: seq<Entry>)
    ensures 14 * |es| <= EntryBytes(es)
    ensures ShortEntries(es) ==> EntryBytes(es) <= 270 * |es|
  {
    if es != [] { EntryBytesBound(es[..|es| - 1]); }
  }

  lemma {:induction false} KeyBytesBound(keys: seq<Key>)
    ensures 4 * |keys| <= KeyBytes(keys)
    ensures ShortKeys(keys) ==> KeyBytes(keys) <= 260 * |keys|
  {
    if keys != [] { KeyBytesBound(keys[..|keys| - 1]); }
  }

  lemma EntryBytesOne(e: Entry)
    ensures EntryBytes([e]) == 14 + |e.key|
  {
    assert [e][..0] == [];
  }

  lemma EntryBytesAt(es: seq<Entry>, p: nat)
    requires p < |es|
    ensures EntryBytes(es) == EntryBytes(es[..p]) + 14 + |es[p].key| + EntryBytes(es[p + 1..])
  {
    assert es == es[..p] + ([es[p]] + es[p + 1..]);
    EntryBytesOne(es[p]);
    EntryBytesApp([es[p]], es[p + 1..]);
    EntryBytesApp(es[..p], [es[p]] + es[p + 1..]);
  }

  lemma UpsertBytes(es: seq<Entry>, key: Key, rid: RecordId)
    ensures EntryBytes(Upsert(es, key, rid)) <= EntryBytes(es) + 14 + |key|
  {
    var p, us := Pos(es, key), Upsert(es, key, rid);
    hide EntryBytes;
    EntryBytesAt(us, p);
    assert us[..p] == es[..p];
    if Hit(es, key) {
      EntryBytesAt(es, p);
      assert us[p + 1..] == es[p + 1..];
    } else {
      assert us[p + 1..] == es[p..] && es == es[..p] + es[p..];
      EntryBytesApp(es[..p], es[p..]);
    }
  }

  lemma UpsertShort(es: seq<Entry>, key: Key, rid: RecordId)
    requires ShortEntries(es) && |key| <= MAX_KEY
    ensures ShortEntries(Upsert(es, key, rid))
  {
  }

  /** A leaf that was full enough to split has two halves that each fit. */
  lemma LeafHalvesFit(es: seq<Entry>, key: Key, rid: RecordId)
    requires LeafSize(es) <= MAX_BODY && ShortEntries(es) && |key| <= MAX_KEY
    ensures var us := Upsert(es, key, rid); var m := |us| / 2;
      LeafSize(us[..m]) <= MAX_BODY && LeafSize(us[m..]) <= MAX_BODY && ShortEntries(us)
    ensures LeafSize(Upsert(es, key, rid)) > MAX_BODY ==> |Upsert(es, key, rid)| >= 2
  {
    var us := Upsert(es, key, rid);
    var m := |us| / 2;
    UpsertBytes(es, key, rid);
    UpsertShort(es, key, rid);
    hide EntryBytes, Upsert;
    assert us == us[..m] + us[m..];
    EntryBytesApp(us[..m], us[m..]);
    EntryBytesBound(us[..m]);
    EntryBytesBound(us[m..]);
    EntryBytesBound(us);
  }

  lemma WithKeyBytes(keys: seq<Key>, i: nat, pivot: Key)
    requires i <= |keys|
    ensures KeyBytes(keys[..i] + [pivot] + keys[i..]) == KeyBytes(keys) + 4 + |pivot|
  {
    var one: seq<Key> := [pivot];
    assert keys == keys[..i] + keys[i..] && one[..0] == [];
    KeyBytesApp(keys[..i], keys[i..]);
    KeyBytesApp(keys[..i] + [pivot], keys[i..]);
    KeyBytesApp(keys[..i], [pivot]);
  }

  /** Likewise an internal node, which also gives up its median separator. */
  lemma InternalHalvesFit(keys: seq<Key>, i: nat, pivot: Key)
    requires i <= |keys| && ShortKeys(keys) && |pivot| <= MAX_KEY && InternalSize(keys, |keys| + 1) <= MAX_BODY
    ensures var ks := keys[..i] + [pivot] + keys[i..]; var m := |ks| / 2;
      InternalSize(ks[..m], m + 1) <= MAX_BODY && InternalSize(ks[m + 1..], |ks| - m) <= MAX_BODY && ShortKeys(ks)
  {
    var ks := keys[..i] + [pivot] + keys[i..];
    var m := |ks| / 2;
    WithKeyBytes(keys, i, pivot);
    KeyBytesAt(ks, m);
    assert ShortKeys(ks);
    KeyBytesBound(ks[..m]);
    KeyBytesBound(ks[m + 1..]);
    HalvesArith(KeyBytes(ks[..m]), m, KeyBytes(ks[m + 1..]), |ks| - m - 1, |ks[m]|);
  }

  /** If one side were over the limit it would have at least 31 keys, and the other side too many to fit before. */
  lemma HalvesArith(l: nat, m: nat, r: nat, n: nat, median: nat)
    requires 4 * m <= l <= 260 * m && 4 * n <= r <= 260 * n && (n == m || n + 1 == m)
    requires 14 + 8 * (m + n + 2) + l + r + 4 + median <= MAX_BODY + 268
    ensures 14 + (m + 1) * 8 + l <= MAX_BODY && 14 + (n + 1) * 8 + r <= MAX_BODY
  {
  }

  lemma KeyBytesAt(keys: seq<Key>, m: nat)
    requires m < |keys|
    ensures KeyBytes(keys) == KeyBytes(keys[..m]) + 4 + |keys[m]| + KeyBytes(keys[m + 1..])
  {
    var median: seq<Key> := [keys[m]];
    assert keys == keys[..m] + (median + keys[m + 1..]) && median[..0] == [];
    KeyBytesApp(keys[..m], median + keys[m + 1..]);
    KeyBytesApp(median, keys[m + 1..]);
  }
}
