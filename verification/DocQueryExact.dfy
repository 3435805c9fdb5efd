/** Exactly which bytes decode to a document query: its encodings, with any non-zero byte for true. */
module DocQueryExact {
  import opened Bytes
  import opened Options
  import opened RecordHeader
  import opened Seqs
  import opened DocQuery

  // ----- What may stand for a query -----

  /** The input begins with these bytes, and `rest` is what follows them. */
  ghost predicate Starts(e: Option<seq<byte>>, s: seq<byte>, rest: seq<byte>) { e.Some? && s == e.value + rest }

  /** Any byte but zero stands for true. */
  predicate SpellsBool(b: bool, s: seq<byte>, rest: seq<byte>) {
    |s| > 0 && (b <==> s[0] != 0) && rest == s[1..]
  }

  ghost predicate SpellsValue(v: Value, s: seq<byte>, rest: seq<byte>) {
    if v.Bool? then |s| > 0 && s[0] == Tag(v) && SpellsBool(v.b, s[1..], rest) else Starts(EncodeValue(v), s, rest)
  }

  ghost predicate SpellsValues(vs: seq<Value>, s: seq<byte>, rest: seq<byte>) {
    if vs == [] then s == rest else exists s1 :: SpellsValue(vs[0], s, s1) && SpellsValues(vs[1..], s1, rest)
  }

  /** The bytes of a query up to its value, its set, its flag or its parts. */
  function Opening(q: Query): Option<seq<byte>> {
    match q
    case All => Some([0])
    case Cmp(op, f, _) => Both(Some([CmpTag(op)]), FieldBytes(f))
    case InSet(neg, f, vs) => Both(Some([if neg then 8 else 7]), Both(FieldBytes(f), CountBytes(|vs|)))
    case Exists(f, _) => Both(Some([9]), FieldBytes(f))
    case Group(any, subs) => Both(Some([if any then 11 else 10]), CountBytes(|subs|))
    case Not(_) => Some([12])
  }

  /** The input begins with bytes that stand for the query, and `rest` follows. */
  ghost predicate Spells(q: Query, s: seq<byte>, rest: seq<byte>)
    decreases q, 0
  {
    exists s1 :: Starts(Opening(q), s, s1) && SpellsRest(q, s1, rest)
  }

  ghost predicate SpellsRest(q: Query, s1: seq<byte>, rest: seq<byte>)
    decreases q, 0, 0
  {
    match q
    case All => s1 == rest
    case Cmp(_, _, v) => SpellsValue(v, s1, rest)
    case InSet(_, _, vs) => SpellsValues(vs, s1, rest)
    case Exists(_, want) => SpellsBool(want, s1, rest)
    case Group(_, subs) => SpellsAll(subs, s1, rest)
    case Not(inner) => Spells(inner, s1, rest)
  }

  ghost predicate SpellsAll(qs: seq<Query>, s: seq<byte>, rest: seq<byte>)
    decreases qs, |qs|
  {
    if qs == [] then s == rest else exists s1 :: Spells(qs[0], s, s1) && SpellsAll(qs[1..], s1, rest)
  }

  // ----- Bytes and integers -----

  lemma TakeIff(s: seq<byte>, n: nat, a: seq<byte>, rest: seq<byte>)
    ensures Take(s, n) == Ok((a, rest)) <==> |a| == n && s == a + rest
  {
    if |a| == n && s == a + rest { TakeApp(a, rest); }
  }

  /** Fixed-width integers have one spelling. */
  lemma {:induction false} LeBack(s: seq<byte>)
    ensures FromLe(s) < Pow256(|s|) && ToLe(FromLe(s), |s|) == s
  {
    if s != [] {
      LeBack(s[1..]);
      var b: nat := s[0] as nat;
      DivModUnique(FromLe(s), 256, FromLe(s[1..]), b);
      assert s == [s[0]] + s[1..];
    }
  }

  lemma WrapBack(u: nat, w: nat)
    requires u < Pow256(w)
    ensures Fits(Unwrap(u, w), w) && Wrap(Unwrap(u, w), w) == u
  {
    ModIs(Unwrap(u, w), Pow256(w), u);
  }

  lemma IntIff(s: seq<byte>, w: nat, n: int, rest: seq<byte>)
    ensures DecodeInt(s, w) == Ok((n, rest)) <==> Fits(n, w) && Starts(Some(ToLe(Wrap(n, w), w)), s, rest)
  {
    hide ToLe, FromLe, Wrap, Unwrap, Fits;
    if Fits(n, w) && Starts(Some(ToLe(Wrap(n, w), w)), s, rest) {
      IntApp(n, w, rest);
    }
    if DecodeInt(s, w) == Ok((n, rest)) {
      var b := s[..w];
      LeBack(b);
      WrapBack(FromLe(b), w);
      TakeIff(s, w, b, rest);
    }
  }

  lemma PrefixedIff(s: seq<byte>, w: nat, a: seq<byte>, rest: seq<byte>)
    ensures TakePrefixed(s, w) == Ok((a, rest)) <==> |a| < Pow256(w) && s == ToLe(|a|, w) + a + rest
  {
    hide ToLe, FromLe;
    if |a| < Pow256(w) && s == ToLe(|a|, w) + a + rest {
      PrefixedApp(a, w, rest);
    }
    if TakePrefixed(s, w) == Ok((a, rest)) {
      var n := s[..w];
      LeBack(n);
      TakeIff(s, w, n, s[w..]);
      TakeIff(s[w..], FromLe(n), a, rest);
      SeqAssoc(n, a, rest);
    }
  }

  lemma FieldIff(utf8: Utf8, s: seq<byte>, f: seq<byte>, rest: seq<byte>)
    ensures TakeField(utf8, s) == Ok((f, rest)) <==> utf8(f) && Starts(FieldBytes(f), s, rest)
  {
    Pow4();
    PrefixedIff(s, 2, f, rest);
    hide TakePrefixed, ToLe, Pow256;
  }

  lemma CountIff(s: seq<byte>, n: nat, rest: seq<byte>)
    ensures TakeCount(s) == Ok((n, rest)) <==> Starts(CountBytes(n), s, rest)
  {
    hide ToLe, FromLe, Pow256;
    if Starts(CountBytes(n), s, rest) {
      CountApp(n, rest);
    }
    if TakeCount(s) == Ok((n, rest)) {
      Pow4();
      LeBack(s[..4]);
      TakeIff(s, 4, s[..4], rest);
    }
  }

  // ----- Values -----

  lemma BinaryBack(s: seq<byte>, v: Value, rest: seq<byte>)
    requires DecodeBinary(s) == Ok((v, rest))
    ensures v.Binary? && Starts(ValueBytes(v), s, rest)
  {
    hide ToLe, FromLe, Pow256;
    var n, s1 := s[..4], s[4..];
    TakeIff(s, 4, n, s1);
    TakeIff(s1, 1, [v.subtype], s1[1..]);
    TakeIff(s1[1..], FromLe(n), v.data, rest);
    Pow4();
    LeBack(n);
    SeqAssoc([v.subtype], v.data, rest);
    SeqAssoc(n, [v.subtype] + v.data, rest);
  }

  lemma BytesBack(utf8: Utf8, tag: byte, s: seq<byte>, v: Value, rest: seq<byte>)
    requires DecodeValueBytes(utf8, tag, s) == Ok((v, rest))
    ensures Tag(v) == tag && ValueOk(utf8, v)
    ensures if v.Bool? then SpellsBool(v.b, s, rest) else Starts(ValueBytes(v), s, rest)
  {
    hide ToLe, FromLe, Pow256, Wrap, Unwrap, Fits, DecodeInt, TakePrefixed, DecodeBinary;
    Pow4();
    match tag {
      case 0 => assert [] + rest == rest;
      case 1 =>
      case 2 => IntIff(s, 4, v.n, rest);
      case 3 => IntIff(s, 8, v.n, rest);
      case 4 => TakeIff(s, 8, v.bits, rest);
      case 5 => PrefixedIff(s, 4, v.text, rest);
      case 6 => BinaryBack(s, v, rest);
      case 9 => IntIff(s, 8, v.n, rest);
      case 10 => TakeIff(s, 12, v.id, rest);
      case _ =>
    }
  }

  /** A value is decoded from its encoding and nothing else, but for the byte of a boolean. */
  lemma ValueIff(utf8: Utf8, s: seq<byte>, v: Value, rest: seq<byte>)
    ensures DecodeValue(utf8, s) == Ok((v, rest)) <==> ValueOk(utf8, v) && SpellsValue(v, s, rest)
  {
    if DecodeValue(utf8, s) == Ok((v, rest)) {
      BytesBack(utf8, s[0], s[1..], v, rest);
      hide ValueBytes, DecodeValueBytes, ValueOk;
      assert s == [s[0]] + s[1..];
      if !v.Bool? { SeqAssoc([s[0]], ValueBytes(v).value, rest); }
    }
    if ValueOk(utf8, v) && SpellsValue(v, s, rest) {
      if v.Bool? {
        TakeIff(s, 1, [s[0]], s[1..]);
        TakeIff(s[1..], 1, [s[1]], rest);
      } else {
        hide EncodeValue, DecodeValue, ValueOk;
        ValueRoundTrip(utf8, v, rest);
      }
    }
  }

  lemma {:induction false} ValuesIff(utf8: Utf8, n: nat, s: seq<byte>, vs: seq<Value>, rest: seq<byte>)
    ensures DecodeValues(utf8, n, s) == Ok((vs, rest)) <==>
      |vs| == n && (forall i :: 0 <= i < |vs| ==> ValueOk(utf8, vs[i])) && SpellsValues(vs, s, rest)
    decreases n
  {
    hide ValueOk, DecodeValue, SpellsValue;
    if n > 0 {
      if DecodeValues(utf8, n, s) == Ok((vs, rest)) {
        var s1 := DecodeValue(utf8, s).value.1;
        ValueIff(utf8, s, vs[0], s1);
        ValuesIff(utf8, n - 1, s1, vs[1..], rest);
      }
      if |vs| == n && (forall i :: 0 <= i < |vs| ==> ValueOk(utf8, vs[i])) && SpellsValues(vs, s, rest) {
        var s1 :| SpellsValue(vs[0], s, s1) && SpellsValues(vs[1..], s1, rest);
        ValueIff(utf8, s, vs[0], s1);
        ValuesIff(utf8, n - 1, s1, vs[1..], rest);
        assert vs == [vs[0]] + vs[1..];
      }
    }
  }

  // ----- Queries -----

  lemma AfterTagIff(tag: byte, e: Option<seq<byte>>, s: seq<byte>, rest: seq<byte>)
    ensures Starts(Both(Some([tag]), e), s, rest) <==> |s| > 0 && s[0] == tag && Starts(e, s[1..], rest)
  {
    if e.Some? {
      SeqAssoc([tag], e.value, rest);
      if |s| > 0 { assert s == [s[0]] + s[1..]; }
      assert ([tag] + (e.value + rest))[1..] == e.value + rest;
    }
  }

  lemma ThenIff(a: Option<seq<byte>>, b: Option<seq<byte>>, s: seq<byte>, rest: seq<byte>)
    ensures Starts(Both(a, b), s, rest) <==> exists s1 :: Starts(a, s, s1) && Starts(b, s1, rest)
  {
    if a.Some? && b.Some? {
      SeqAssoc(a.value, b.value, rest);
      if s1 :| Starts(a, s, s1) && Starts(b, s1, rest) {
        assert s == a.value + (b.value + rest);
      } else if Starts(Both(a, b), s, rest) {
        assert Starts(a, s, b.value + rest) && Starts(b, b.value + rest, rest);
      }
    }
  }

  lemma CmpIff(utf8: Utf8, op: CmpOp, f: seq<byte>, v: Value, s: seq<byte>, rest: seq<byte>)
    ensures Decode(utf8, s) == Ok((Cmp(op, f, v), rest)) <==>
      exists s1 :: Starts(Opening(Cmp(op, f, v)), s, s1) && utf8(f) && DecodeValue(utf8, s1) == Ok((v, rest))
  {
    hide DecodeValue, TakeField, FieldBytes, Starts, Both, DecodeValues, DecodeAll, TakeCount;
    if Decode(utf8, s) == Ok((Cmp(op, f, v), rest)) {
      var s1 := TakeField(utf8, s[1..]).value.1;
      FieldIff(utf8, s[1..], f, s1);
      AfterTagIff(s[0], FieldBytes(f), s, s1);
      assert CmpTag(op) == s[0];
    }
    if s1 :| Starts(Opening(Cmp(op, f, v)), s, s1) && utf8(f) && DecodeValue(utf8, s1) == Ok((v, rest)) {
      AfterTagIff(CmpTag(op), FieldBytes(f), s, s1);
      FieldIff(utf8, s[1..], f, s1);
      assert CmpOf(CmpTag(op)) == op;
    }
  }

  lemma InSetIff(utf8: Utf8, neg: bool, f: seq<byte>, vs: seq<Value>, s: seq<byte>, rest: seq<byte>)
    ensures Decode(utf8, s) == Ok((InSet(neg, f, vs), rest)) <==>
      exists s1 ::
        Starts(Opening(InSet(neg, f, vs)), s, s1) && utf8(f) && DecodeValues(utf8, |vs|, s1) == Ok((vs, rest))
  {
    hide DecodeValue, TakeField, FieldBytes, CountBytes, Starts, Both, DecodeValues, DecodeAll, TakeCount;
    var tag: byte, field, count := if neg then 8 else 7, FieldBytes(f), CountBytes(|vs|);
    if Decode(utf8, s) == Ok((InSet(neg, f, vs), rest)) {
      var s2 := TakeField(utf8, s[1..]).value.1;
      var n, s1 := TakeCount(s2).value.0, TakeCount(s2).value.1;
      ValuesIff(utf8, n, s1, vs, rest);
      FieldIff(utf8, s[1..], f, s2);
      CountIff(s2, n, s1);
      ThenIff(field, count, s[1..], s1);
      AfterTagIff(tag, Both(field, count), s, s1);
    }
    if s1 :| Starts(Opening(InSet(neg, f, vs)), s, s1) && utf8(f) && DecodeValues(utf8, |vs|, s1) == Ok((vs, rest)) {
      AfterTagIff(tag, Both(field, count), s, s1);
      ThenIff(field, count, s[1..], s1);
      var s2 :| Starts(field, s[1..], s2) && Starts(count, s2, s1);
      FieldIff(utf8, s[1..], f, s2);
      CountIff(s2, |vs|, s1);
    }
  }

  lemma ExistsIff(utf8: Utf8, f: seq<byte>, want: bool, s: seq<byte>, rest: seq<byte>)
    ensures Decode(utf8, s) == Ok((Exists(f, want), rest)) <==>
      exists s1 :: Starts(Opening(Exists(f, want)), s, s1) && utf8(f) && SpellsBool(want, s1, rest)
  {
    hide DecodeValue, TakeField, FieldBytes, Starts, Both, DecodeValues, DecodeAll, TakeCount;
    if Decode(utf8, s) == Ok((Exists(f, want), rest)) {
      var s1 := TakeField(utf8, s[1..]).value.1;
      FieldIff(utf8, s[1..], f, s1);
      AfterTagIff(9, FieldBytes(f), s, s1);
      assert Starts(Opening(Exists(f, want)), s, s1) && SpellsBool(want, s1, rest);
    }
    if s1 :| Starts(Opening(Exists(f, want)), s, s1) && utf8(f) && SpellsBool(want, s1, rest) {
      AfterTagIff(9, FieldBytes(f), s, s1);
      FieldIff(utf8, s[1..], f, s1);
    }
  }

  lemma GroupIff(utf8: Utf8, any: bool, subs: seq<Query>, s: seq<byte>, rest: seq<byte>)
    ensures Decode(utf8, s) == Ok((Group(any, subs), rest)) <==>
      exists s1 :: Starts(Opening(Group(any, subs)), s, s1) && DecodeAll(utf8, |subs|, s1) == Ok((subs, rest))
  {
    hide DecodeValue, TakeField, CountBytes, Starts, Both, DecodeValues, DecodeAll, TakeCount;
    var tag: byte := if any then 11 else 10;
    if Decode(utf8, s) == Ok((Group(any, subs), rest)) {
      var n, s1 := TakeCount(s[1..]).value.0, TakeCount(s[1..]).value.1;
      AllCount(utf8, n, s1);
      CountIff(s[1..], n, s1);
      AfterTagIff(tag, CountBytes(n), s, s1);
    }
    if s1 :| Starts(Opening(Group(any, subs)), s, s1) && DecodeAll(utf8, |subs|, s1) == Ok((subs, rest)) {
      AfterTagIff(tag, CountBytes(|subs|), s, s1);
      CountIff(s[1..], |subs|, s1);
    }
  }

  lemma {:induction false} AllCount(utf8: Utf8, n: nat, s: seq<byte>)
    ensures DecodeAll(utf8, n, s).Ok? ==> |DecodeAll(utf8, n, s).value.0| == n
    decreases n
  {
    hide Decode;
    if n > 0 && Decode(utf8, s).Ok? { AllCount(utf8, n - 1, Decode(utf8, s).value.1); }
  }

  lemma NotIff(utf8: Utf8, q: Query, s: seq<byte>, rest: seq<byte>)
    ensures Decode(utf8, s) == Ok((Not(q), rest)) <==>
      exists s1 :: Starts(Opening(Not(q)), s, s1) && Decode(utf8, s1) == Ok((q, rest))
  {
    hide DecodeValue, TakeField, DecodeValues, DecodeAll, TakeCount;
    if Decode(utf8, s) == Ok((Not(q), rest)) {
      assert s == [12] + s[1..];
      assert Starts(Opening(Not(q)), s, s[1..]);
    }
    if s1 :| Starts(Opening(Not(q)), s, s1) && Decode(utf8, s1) == Ok((q, rest)) {
      AfterTag(utf8, 12, s1);
    }
  }

  /**
   * The decoder accepts exactly the encodings, with any non-zero byte for true: unknown tags, short input and text
   * that is not UTF-8 are refused, and what is accepted is what the bytes stand for.
   */
  lemma {:induction false} DecodeIff(utf8: Utf8, q: Query, s: seq<byte>, rest: seq<byte>)
    ensures Decode(utf8, s) == Ok((q, rest)) <==> QueryOk(utf8, q) && Spells(q, s, rest)
    decreases q, 0
  {
    hide Decode, DecodeAll, DecodeValue, DecodeValues, ValueOk, SpellsValue, SpellsValues, Opening, Starts;
    match q {
      case All => AllIff(utf8, s, rest);
      case Cmp(op, f, v) =>
        CmpIff(utf8, op, f, v, s, rest);
        forall s1 { ValueIff(utf8, s1, v, rest); }
      case InSet(neg, f, vs) =>
        InSetIff(utf8, neg, f, vs, s, rest);
        forall s1 { ValuesIff(utf8, |vs|, s1, vs, rest); }
      case Exists(f, want) => ExistsIff(utf8, f, want, s, rest);
      case Group(any, subs) =>
        GroupIff(utf8, any, subs, s, rest);
        forall s1 { PartsIff(utf8, subs, s1, rest); }
      case Not(inner) =>
        NotIff(utf8, inner, s, rest);
        forall s1 { DecodeIff(utf8, inner, s1, rest); }
    }
  }

  /** The same for a whole message. */
  lemma WholeIff(utf8: Utf8, q: Query, s: seq<byte>)
    ensures WholeQuery(utf8, s) == Ok(q) <==> QueryOk(utf8, q) && Spells(q, s, [])
  {
    hide Decode, QueryOk, Spells;
    DecodeIff(utf8, q, s, []);
  }

  lemma AllIff(utf8: Utf8, s: seq<byte>, rest: seq<byte>)
    ensures Decode(utf8, s) == Ok((All, rest)) <==> Starts(Opening(All), s, rest)
  {
    hide DecodeValue, TakeField, DecodeValues, DecodeAll, TakeCount;
    TakeIff(s, 1, [0], rest);
  }

  lemma FirstPart(qs: seq<Query>, s: seq<byte>, rest: seq<byte>) returns (s1: seq<byte>)
    requires qs != [] && SpellsAll(qs, s, rest)
    ensures Spells(qs[0], s, s1) && SpellsAll(qs[1..], s1, rest)
  {
    s1 :| Spells(qs[0], s, s1) && SpellsAll(qs[1..], s1, rest);
  }

  lemma {:induction false} PartsIff(utf8: Utf8, qs: seq<Query>, s: seq<byte>, rest: seq<byte>)
    ensures DecodeAll(utf8, |qs|, s) == Ok((qs, rest)) <==>
      (forall i :: 0 <= i < |qs| ==> QueryOk(utf8, qs[i])) && SpellsAll(qs, s, rest)
    decreases qs, |qs|
  {
    hide Decode, QueryOk;
    if qs != [] {
      if DecodeAll(utf8, |qs|, s) == Ok((qs, rest)) {
        var s1 := Decode(utf8, s).value.1;
        DecodeIff(utf8, qs[0], s, s1);
        PartsIff(utf8, qs[1..], s1, rest);
      }
      if (forall i :: 0 <= i < |qs| ==> QueryOk(utf8, qs[i])) && SpellsAll(qs, s, rest) {
        var s1 := FirstPart(qs, s, rest);
        DecodeIff(utf8, qs[0], s, s1);
        PartsIff(utf8, qs[1..], s1, rest);
        assert qs == [qs[0]] + qs[1..];
      }
    }
  }
}
