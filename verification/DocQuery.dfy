/** The wire form of document queries: a recursive, length-prefixed codec with a bounds-checked reader. */
module DocQuery {
  import opened Bytes
  import opened Options
  import opened RecordHeader
  import opened Seqs

  /** Doubles are their eight bytes, strings their UTF-8 bytes. */
  datatype Value =
    | Null
    | Bool(b: bool)
    | Int32(n: int)
    | Int64(n: int)
    | Double(bits: seq<byte>)
    | Str(text: seq<byte>)
    | Binary(subtype: byte, data: seq<byte>)
    | Timestamp(n: int)
    | ObjectId(id: seq<byte>)

  datatype CmpOp = Eq | Ne | Gt | Lt | Gte | Lte

  datatype Query =
    | All
    | Cmp(op: CmpOp, field: seq<byte>, value: Value)
    | InSet(negated: bool, field: seq<byte>, values: seq<Value>)
    | Exists(field: seq<byte>, want: bool)
    | Group(any: bool, subs: seq<Query>)
    | Not(inner: Query)

  /** The UTF-8 check is a parameter. */
  type Utf8 = seq<byte> -> bool

  // ----- Integers -----

  function Wrap(n: int, w: nat): nat { n % Pow256(w) }

  function Unwrap(u: nat, w: nat): int { if 2 * u < Pow256(w) then u else u - Pow256(w) }

  predicate Fits(n: int, w: nat) { 0 <= 2 * n + Pow256(w) && 2 * n < Pow256(w) }

  lemma WrapRoundTrip(n: int, w: nat)
    requires Fits(n, w)
    ensures Unwrap(FromLe(ToLe(Wrap(n, w), w)), w) == n
  {
    LeRoundTrip(Wrap(n, w), w);
    var p := Pow256(w);
    if n >= 0 { ModIs(n, p, n); } else { ModIs(n, p, n + p); }
    ModIs(Wrap(n, w), p, Wrap(n, w));
  }

  lemma ModIs(n: int, p: nat, r: int)
    requires 0 <= r < p && (n == r || n + p == r)
    ensures n % p == r
  {
    if n < 0 {
      assert n == (-1) * p + r;
    }
  }

  // ----- Values -----

  predicate ValueOk(utf8: Utf8, v: Value) {
    match v
    case Int32(n) => Fits(n, 4)
    case Int64(n) => Fits(n, 8)
    case Timestamp(n) => Fits(n, 8)
    case Double(bits) => |bits| == 8
    case Str(s) => utf8(s)
    case ObjectId(id) => |id| == 12
    case _ => true
  }

  function Tag(v: Value): byte {
    match v
    case Null => 0 case Bool(_) => 1 case Int32(_) => 2 case Int64(_) => 3 case Double(_) => 4
    case Str(_) => 5 case Binary(_, _) => 6 case Timestamp(_) => 9 case ObjectId(_) => 10
  }

  /** The bytes of a value after its tag; `None` if it is too long for its length prefix. */
  function ValueBytes(v: Value): Option<seq<byte>> {
    match v
    case Null => Some([])
    case Bool(b) => Some([if b then 1 else 0])
    case Int32(n) => Some(ToLe(Wrap(n, 4), 4))
    case Int64(n) => Some(ToLe(Wrap(n, 8), 8))
    case Double(bits) => Some(bits)
    case Str(s) => if |s| < TWO32 then Some(ToLe(|s|, 4) + s) else None
    case Binary(t, d) => if |d| < TWO32 then Some(ToLe(|d|, 4) + ([t] + d)) else None
    case Timestamp(n) => Some(ToLe(Wrap(n, 8), 8))
    case ObjectId(id) => Some(id)
  }

  function EncodeValue(v: Value): Option<seq<byte>> {
    match ValueBytes(v) case None => None case Some(b) => Some([Tag(v)] + b)
  }

  // ----- Reading -----

  /** The next `n` bytes and the rest. */
  function Take(s: seq<byte>, n: nat): Result<(seq<byte>, seq<byte>)> {
    if n <= |s| then Ok((s[..n], s[n..])) else Err
  }

  lemma TakeApp(a: seq<byte>, rest: seq<byte>)
    ensures Take(a + rest, |a|) == Ok((a, rest))
  {
    assert (a + rest)[..|a|] == a && (a + rest)[|a|..] == rest;
  }

  /** A byte string behind a length of `w` bytes. */
  function TakePrefixed(s: seq<byte>, w: nat): Result<(seq<byte>, seq<byte>)> {
    match Take(s, w) case Err => Err case Ok((n, rest)) => Take(rest, FromLe(n))
  }

  lemma PrefixedApp(a: seq<byte>, w: nat, rest: seq<byte>)
    requires |a| < Pow256(w)
    ensures TakePrefixed(ToLe(|a|, w) + a + rest, w) == Ok((a, rest))
  {
    var len := ToLe(|a|, w);
    LeFits(|a|, w);
    SeqAssoc(len, a, rest);
    TakeApp(len, a + rest);
    TakeApp(a, rest);
    hide ToLe, FromLe;
  }

  function DecodeInt(s: seq<byte>, w: nat): Result<(int, seq<byte>)> {
    match Take(s, w) case Err => Err case Ok((b, rest)) => Ok((Unwrap(FromLe(b), w), rest))
  }

  lemma IntApp(n: int, w: nat, rest: seq<byte>)
    requires Fits(n, w)
    ensures DecodeInt(ToLe(Wrap(n, w), w) + rest, w) == Ok((n, rest))
  {
    TakeApp(ToLe(Wrap(n, w), w), rest);
    WrapRoundTrip(n, w);
    hide ToLe, FromLe, Wrap, Unwrap;
  }

  function DecodeValueBytes(utf8: Utf8, tag: byte, s: seq<byte>): (r: Result<(Value, seq<byte>)>)
    ensures r.Ok? ==> |r.value.1| <= |s|
  {
    match tag
    case 0 => Ok((Null, s))
    case 1 => (match Take(s, 1) case Err => Err case Ok((b, rest)) => Ok((Bool(b[0] != 0), rest)))
    case 2 => (match DecodeInt(s, 4) case Err => Err case Ok((n, rest)) => Ok((Int32(n), rest)))
    case 3 => (match DecodeInt(s, 8) case Err => Err case Ok((n, rest)) => Ok((Int64(n), rest)))
    case 4 => (match Take(s, 8) case Err => Err case Ok((b, rest)) => Ok((Double(b), rest)))
    case 5 => (match TakePrefixed(s, 4) case Err => Err
      case Ok((b, rest)) => if utf8(b) then Ok((Str(b), rest)) else Err)
    case 6 => DecodeBinary(s)
    case 9 => (match DecodeInt(s, 8) case Err => Err case Ok((n, rest)) => Ok((Timestamp(n), rest)))
    case 10 => (match Take(s, 12) case Err => Err case Ok((b, rest)) => Ok((ObjectId(b), rest)))
    case _ => Err
  }

  function DecodeBinary(s: seq<byte>): (r: Result<(Value, seq<byte>)>)
    ensures r.Ok? ==> |r.value.1| <= |s|
  {
    match Take(s, 4)
    case Err => Err
    case Ok((n, s1)) =>
      match Take(s1, 1)
      case Err => Err
      case Ok((t, s2)) =>
        match Take(s2, FromLe(n)) case Err => Err case Ok((d, rest)) => Ok((Binary(t[0], d), rest))
  }

  function DecodeValue(utf8: Utf8, s: seq<byte>): (r: Result<(Value, seq<byte>)>)
    ensures r.Ok? ==> |r.value.1| < |s|
  {
    match Take(s, 1) case Err => Err case Ok((t, rest)) => DecodeValueBytes(utf8, t[0], rest)
  }

  lemma BinaryApp(t: byte, d: seq<byte>, rest: seq<byte>)
    requires |d| < TWO32
    ensures DecodeBinary(ToLe(|d|, 4) + ([t] + d) + rest) == Ok((Binary(t, d), rest))
  {
    var len := ToLe(|d|, 4);
    Le4Fits(|d|);
    hide ToLe, FromLe;
    SeqAssoc(len, [t] + d, rest);
    SeqAssoc([t], d, rest);
    TakeApp(len, [t] + (d + rest));
    TakeApp([t], d + rest);
    TakeApp(d, rest);
  }

  lemma ValueApp(utf8: Utf8, v: Value, rest: seq<byte>)
    requires ValueOk(utf8, v) && ValueBytes(v).Some?
    ensures DecodeValueBytes(utf8, Tag(v), ValueBytes(v).value + rest) == Ok((v, rest))
  {
    Pow4();
    match v {
      case Null => assert [] + rest == rest;
      case Bool(b) => TakeApp([if b then 1 else 0], rest);
      case Int32(n) => IntApp(n, 4, rest);
      case Int64(n) => IntApp(n, 8, rest);
      case Double(bits) => TakeApp(bits, rest);
      case Str(s) => PrefixedApp(s, 4, rest);
      case Binary(t, d) => BinaryApp(t, d, rest);
      case Timestamp(n) => IntApp(n, 8, rest);
      case ObjectId(id) => TakeApp(id, rest);
    }
  }

  lemma ValueRoundTrip(utf8: Utf8, v: Value, rest: seq<byte>)
    requires ValueOk(utf8, v) && EncodeValue(v).Some?
    ensures DecodeValue(utf8, EncodeValue(v).value + rest) == Ok((v, rest))
  {
    var b := ValueBytes(v).value;
    ValueApp(utf8, v, rest);
    SeqAssoc([Tag(v)], b, rest);
    TakeApp([Tag(v)], b + rest);
    hide ValueBytes, DecodeValueBytes, ValueOk;
  }

  // ----- Queries -----

  function CmpTag(op: CmpOp): byte {
    match op case Eq => 1 case Ne => 2 case Gt => 3 case Lt => 4 case Gte => 5 case Lte => 6
  }

  function CmpOf(tag: byte): CmpOp
    requires 1 <= tag <= 6
  {
    match tag case 1 => Eq case 2 => Ne case 3 => Gt case 4 => Lt case 5 => Gte case _ => Lte
  }

  ghost predicate QueryOk(utf8: Utf8, q: Query) {
    match q
    case All => true
    case Cmp(_, f, v) => utf8(f) && ValueOk(utf8, v)
    case InSet(_, f, vs) => utf8(f) && forall i :: 0 <= i < |vs| ==> ValueOk(utf8, vs[i])
    case Exists(f, _) => utf8(f)
    case Group(_, subs) => forall i :: 0 <= i < |subs| ==> QueryOk(utf8, subs[i])
    case Not(inner) => QueryOk(utf8, inner)
  }

  /** Both parts, if both were encoded. */
  function Both(a: Option<seq<byte>>, b: Option<seq<byte>>): Option<seq<byte>> {
    if a.Some? && b.Some? then Some(a.value + b.value) else None
  }

  function FieldBytes(f: seq<byte>): Option<seq<byte>> {
    if |f| < 0x1_0000 then Some(ToLe(|f|, 2) + f) else None
  }

  function CountBytes(n: nat): Option<seq<byte>> {
    if n < TWO32 then Some(ToLe(n, 4)) else None
  }

  function EncodeValues(vs: seq<Value>): Option<seq<byte>> {
    if vs == [] then Some([]) else Both(EncodeValue(vs[0]), EncodeValues(vs[1..]))
  }

  /** `None` if a field, string, set or group is too long for its length prefix. */
  function Encode(q: Query): Option<seq<byte>>
    decreases q, 0
  {
    match q
    case All => Some([0])
    case Cmp(op, f, v) => Both(Both(Some([CmpTag(op)]), FieldBytes(f)), EncodeValue(v))
    case InSet(neg, f, vs) =>
      Both(Both(Both(Some([if neg then 8 else 7]), FieldBytes(f)), CountBytes(|vs|)), EncodeValues(vs))
    case Exists(f, want) => Both(Both(Some([9]), FieldBytes(f)), Some([if want then 1 else 0]))
    case Group(any, subs) => Both(Both(Some([if any then 11 else 10]), CountBytes(|subs|)), EncodeAll(subs))
    case Not(inner) => Both(Some([12]), Encode(inner))
  }

  function EncodeAll(qs: seq<Query>): Option<seq<byte>>
    decreases qs, |qs|
  {
    if qs == [] then Some([]) else Both(Encode(qs[0]), EncodeAll(qs[1..]))
  }

  function TakeField(utf8: Utf8, s: seq<byte>): (r: Result<(seq<byte>, seq<byte>)>)
    ensures r.Ok? ==> |r.value.1| < |s|
  {
    match TakePrefixed(s, 2) case Err => Err case Ok((f, rest)) => if utf8(f) then Ok((f, rest)) else Err
  }

  function TakeCount(s: seq<byte>): (r: Result<(nat, seq<byte>)>)
    ensures r.Ok? ==> |r.value.1| < |s|
  {
    match Take(s, 4) case Err => Err case Ok((n, rest)) => Ok((FromLe(n), rest))
  }

  function DecodeValues(utf8: Utf8, n: nat, s: seq<byte>): (r: Result<(seq<Value>, seq<byte>)>)
    ensures r.Ok? ==> |r.value.1| <= |s|
    decreases n
  {
    if n == 0 then Ok(([], s))
    else
      match DecodeValue(utf8, s)
      case Err => Err
      case Ok((v, s1)) =>
        match DecodeValues(utf8, n - 1, s1) case Err => Err case Ok((vs, rest)) => Ok(([v] + vs, rest))
  }

  /** Decoding always ends: every call takes at least its tag from the input. */
  function Decode(utf8: Utf8, s: seq<byte>): (r: Result<(Query, seq<byte>)>)
    ensures r.Ok? ==> |r.value.1| < |s|
    decreases |s|, 0, 0
  {
    match Take(s, 1)
    case Err => Err
    case Ok((t, s1)) =>
      var tag := t[0];
      if tag == 0 then Ok((All, s1))
      else if tag <= 6 then
        match TakeField(utf8, s1)
        case Err => Err
        case Ok((f, s2)) =>
          match DecodeValue(utf8, s2) case Err => Err case Ok((v, rest)) => Ok((Cmp(CmpOf(tag), f, v), rest))
      else if tag <= 8 then
        match TakeField(utf8, s1)
        case Err => Err
        case Ok((f, s2)) =>
          match TakeCount(s2)
          case Err => Err
          case Ok((n, s3)) =>
            match DecodeValues(utf8, n, s3) case Err => Err case Ok((vs, rest)) => Ok((InSet(tag == 8, f, vs), rest))
      else if tag == 9 then
        match TakeField(utf8, s1)
        case Err => Err
        case Ok((f, s2)) => (match Take(s2, 1) case Err => Err case Ok((b, rest)) => Ok((Exists(f, b[0] != 0), rest)))
      else if tag <= 11 then
        match TakeCount(s1)
        case Err => Err
        case Ok((n, s2)) =>
          match DecodeAll(utf8, n, s2) case Err => Err case Ok((qs, rest)) => Ok((Group(tag == 11, qs), rest))
      else if tag == 12 then
        match Decode(utf8, s1) case Err => Err case Ok((q, rest)) => Ok((Not(q), rest))
      else Err
  }

  function DecodeAll(utf8: Utf8, n: nat, s: seq<byte>): (r: Result<(seq<Query>, seq<byte>)>)
    ensures r.Ok? ==> |r.value.1| <= |s|
    decreases |s|, 1, n
  {
    if n == 0 then Ok(([], s))
    else
      match Decode(utf8, s)
      case Err => Err
      case Ok((q, s1)) =>
        match DecodeAll(utf8, n - 1, s1) case Err => Err case Ok((qs, rest)) => Ok(([q] + qs, rest))
  }

  // ----- Round trip -----

  lemma FieldApp(utf8: Utf8, f: seq<byte>, rest: seq<byte>)
    requires utf8(f) && FieldBytes(f).Some?
    ensures TakeField(utf8, FieldBytes(f).value + rest) == Ok((f, rest))
  {
    Pow4();
    PrefixedApp(f, 2, rest);
    hide TakePrefixed, ToLe, Pow256;
  }

  lemma CountApp(n: nat, rest: seq<byte>)
    requires CountBytes(n).Some?
    ensures TakeCount(CountBytes(n).value + rest) == Ok((n, rest))
  {
    Le4Fits(n);
    TakeApp(ToLe(n, 4), rest);
    hide ToLe, FromLe, Take;
  }

  lemma {:induction false} ValuesApp(utf8: Utf8, vs: seq<Value>, rest: seq<byte>)
    requires EncodeValues(vs).Some? && forall i :: 0 <= i < |vs| ==> ValueOk(utf8, vs[i])
    ensures DecodeValues(utf8, |vs|, EncodeValues(vs).value + rest) == Ok((vs, rest))
    decreases |vs|
  {
    hide ValueOk, EncodeValue, DecodeValue;
    if vs == [] {
      assert [] + rest == rest;
    } else {
      var a, b := EncodeValue(vs[0]).value, EncodeValues(vs[1..]).value;
      ValuesApp(utf8, vs[1..], rest);
      ValueRoundTrip(utf8, vs[0], b + rest);
      SeqAssoc(a, b, rest);
      assert vs == [vs[0]] + vs[1..];
    }
  }

  /** What the decoder does after each tag. */
  lemma AfterTag(utf8: Utf8, tag: byte, s: seq<byte>)
    ensures Take([tag] + s, 1) == Ok(([tag], s))
  {
    TakeApp([tag], s);
  }

  lemma CmpApp(utf8: Utf8, op: CmpOp, f: seq<byte>, v: Value, rest: seq<byte>)
    requires utf8(f) && ValueOk(utf8, v) && Encode(Cmp(op, f, v)).Some?
    ensures Decode(utf8, Encode(Cmp(op, f, v)).value + rest) == Ok((Cmp(op, f, v), rest))
  {
    hide ValueOk, EncodeValue, DecodeValue, TakeField, FieldBytes;
    var tag, a, b := CmpTag(op), FieldBytes(f).value, EncodeValue(v).value;
    Three([tag], a, b, rest);
    AfterTag(utf8, tag, a + (b + rest));
    hide Take;
    FieldApp(utf8, f, b + rest);
    ValueRoundTrip(utf8, v, rest);
    assert CmpOf(tag) == op;
  }

  lemma Three(t: seq<byte>, a: seq<byte>, b: seq<byte>, rest: seq<byte>)
    ensures t + a + b + rest == t + (a + (b + rest))
  {
    SeqAssoc(t + a, b, rest);
    SeqAssoc(t, a, b + rest);
  }

  lemma InSetApp(utf8: Utf8, neg: bool, f: seq<byte>, vs: seq<Value>, rest: seq<byte>)
    requires QueryOk(utf8, InSet(neg, f, vs)) && Encode(InSet(neg, f, vs)).Some?
    ensures Decode(utf8, Encode(InSet(neg, f, vs)).value + rest) == Ok((InSet(neg, f, vs), rest))
  {
    hide ValueOk, EncodeValues, DecodeValues, TakeField, FieldBytes, CountBytes, TakeCount;
    var tag: byte, a, n, b := if neg then 8 else 7, FieldBytes(f).value, CountBytes(|vs|).value, EncodeValues(vs).value;
    SeqAssoc([tag] + a + n, b, rest);
    Three([tag], a, n, b + rest);
    AfterTag(utf8, tag, a + (n + (b + rest)));
    hide Take;
    FieldApp(utf8, f, n + (b + rest));
    CountApp(|vs|, b + rest);
    ValuesApp(utf8, vs, rest);
  }

  lemma ExistsApp(utf8: Utf8, f: seq<byte>, want: bool, rest: seq<byte>)
    requires utf8(f) && Encode(Exists(f, want)).Some?
    ensures Decode(utf8, Encode(Exists(f, want)).value + rest) == Ok((Exists(f, want), rest))
  {
    hide TakeField, FieldBytes;
    var a, b: byte := FieldBytes(f).value, if want then 1 else 0;
    Three([9], a, [b], rest);
    AfterTag(utf8, 9, a + ([b] + rest));
    AfterTag(utf8, b, rest);
    hide Take;
    FieldApp(utf8, f, [b] + rest);
  }

  lemma GroupApp(utf8: Utf8, any: bool, subs: seq<Query>, rest: seq<byte>)
    requires Encode(Group(any, subs)).Some?
    requires EncodeAll(subs).Some? ==> DecodeAll(utf8, |subs|, EncodeAll(subs).value + rest) == Ok((subs, rest))
    ensures Decode(utf8, Encode(Group(any, subs)).value + rest) == Ok((Group(any, subs), rest))
  {
    hide EncodeAll, DecodeAll, CountBytes, TakeCount;
    var tag: byte, n, b := if any then 11 else 10, CountBytes(|subs|).value, EncodeAll(subs).value;
    Three([tag], n, b, rest);
    AfterTag(utf8, tag, n + (b + rest));
    hide Take;
    CountApp(|subs|, b + rest);
  }

  lemma NotApp(utf8: Utf8, q: Query, rest: seq<byte>)
    requires Encode(q).Some? && Decode(utf8, Encode(q).value + rest) == Ok((q, rest))
    ensures Encode(Not(q)).Some? && Decode(utf8, Encode(Not(q)).value + rest) == Ok((Not(q), rest))
  {
    var b := Encode(q).value;
    SeqAssoc([12], b, rest);
    AfterTag(utf8, 12, b + rest);
    hide Take;
  }

  /** Decoding an encoded query, whatever bytes follow it, gives back the query and leaves exactly those bytes. */
  lemma {:induction false} QueryRoundTrip(utf8: Utf8, q: Query, rest: seq<byte>)
    requires QueryOk(utf8, q) && Encode(q).Some?
    ensures Decode(utf8, Encode(q).value + rest) == Ok((q, rest))
    decreases q, 0
  {
    match q {
      case All => AfterTag(utf8, 0, rest);
      case Cmp(op, f, v) => CmpApp(utf8, op, f, v, rest);
      case InSet(neg, f, vs) => InSetApp(utf8, neg, f, vs, rest);
      case Exists(f, want) => ExistsApp(utf8, f, want, rest);
      case Group(any, subs) =>
        if EncodeAll(subs).Some? { AllRoundTrip(utf8, subs, rest); }
        hide Decode, DecodeAll;
        GroupApp(utf8, any, subs, rest);
      case Not(inner) =>
        QueryRoundTrip(utf8, inner, rest);
        hide Decode;
        NotApp(utf8, inner, rest);
    }
  }

  lemma {:induction false} AllRoundTrip(utf8: Utf8, qs: seq<Query>, rest: seq<byte>)
    requires EncodeAll(qs).Some? && forall i :: 0 <= i < |qs| ==> QueryOk(utf8, qs[i])
    ensures DecodeAll(utf8, |qs|, EncodeAll(qs).value + rest) == Ok((qs, rest))
    decreases qs, |qs|
  {
    hide Decode, QueryOk;
    if qs == [] {
      assert [] + rest == rest;
    } else {
      var a, b := Encode(qs[0]).value, EncodeAll(qs[1..]).value;
      AllRoundTrip(utf8, qs[1..], rest);
      QueryRoundTrip(utf8, qs[0], b + rest);
      hide Encode;
      SeqAssoc(a, b, rest);
      assert qs == [qs[0]] + qs[1..];
    }
  }

  // ----- The reader and the decoder that moves it -----

  class Reader {
    const buf: seq<byte>
    var pos: nat

    ghost predicate Valid()
      reads this
    {
      pos <= |buf|
    }

    /** The bytes not yet consumed. */
    ghost function Left(): seq<byte>
      requires Valid()
      reads this
    {
      buf[pos..]
    }

    constructor (bytes: seq<byte>)
      ensures Valid() && Left() == bytes && buf == bytes && pos == 0
    {
      buf, pos := bytes, 0;
    }

    /** `take`: bounds-checked; a short read consumes nothing. */
    method Next(n: nat) returns (r: Result<seq<byte>>)
      requires Valid()
      modifies this
      ensures Valid() && |Left()| <= |old(Left())| && (r.Err? <==> Take(old(Left()), n).Err?)
        && (r.Err? ==> pos == old(pos))
      ensures r.Ok? ==> Take(old(Left()), n) == Ok((r.value, Left())) && |r.value| == n
    {
      if pos + n > |buf| {
        return Err;
      }
      r := Ok(buf[pos..pos + n]);
      assert buf[pos..][..n] == buf[pos..pos + n] && buf[pos..][n..] == buf[pos + n..];
      pos := pos + n;
    }

    method NextField(utf8: Utf8) returns (r: Result<seq<byte>>)
      requires Valid()
      modifies this
      ensures Valid() && |Left()| <= |old(Left())| && (r.Err? <==> TakeField(utf8, old(Left())).Err?)
      ensures r.Ok? ==> TakeField(utf8, old(Left())) == Ok((r.value, Left()))
    {
      hide FromLe;
      var len := Next(2);
      if len.Err? { return Err; }
      r := Next(FromLe(len.value));
      if r.Ok? && !utf8(r.value) { r := Err; }
    }

    method NextCount() returns (r: Result<nat>)
      requires Valid()
      modifies this
      ensures Valid() && |Left()| <= |old(Left())| && (r.Err? <==> TakeCount(old(Left())).Err?)
      ensures r.Ok? ==> TakeCount(old(Left())) == Ok((r.value, Left()))
    {
      hide FromLe;
      var n := Next(4);
      if n.Err? { return Err; }
      r := Ok(FromLe(n.value));
    }

    method NextInt(w: nat) returns (r: Result<int>)
      requires Valid()
      modifies this
      ensures Valid() && |Left()| <= |old(Left())| && (r.Err? <==> DecodeInt(old(Left()), w).Err?)
      ensures r.Ok? ==> DecodeInt(old(Left()), w) == Ok((r.value, Left()))
    {
      hide FromLe, Unwrap;
      var b := Next(w);
      if b.Err? { return Err; }
      r := Ok(Unwrap(FromLe(b.value), w));
    }

    method NextValue(utf8: Utf8) returns (r: Result<Value>)
      requires Valid()
      modifies this
      ensures Valid() && |Left()| <= |old(Left())| && (r.Err? <==> DecodeValue(utf8, old(Left())).Err?)
      ensures r.Ok? ==> DecodeValue(utf8, old(Left())) == Ok((r.value, Left()))
    {
      hide FromLe, Unwrap;
      var t := Next(1);
      if t.Err? { return Err; }
      match t.value[0] {
        case 0 => r := Ok(Null);
        case 1 =>
          var b := Next(1);
          r := if b.Err? then Err else Ok(Bool(b.value[0] != 0));
        case 2 =>
          var n := NextInt(4);
          r := if n.Err? then Err else Ok(Int32(n.value));
        case 3 =>
          var n := NextInt(8);
          r := if n.Err? then Err else Ok(Int64(n.value));
        case 4 =>
          var b := Next(8);
          r := if b.Err? then Err else Ok(Double(b.value));
        case 5 =>
          var len := Next(4);
          if len.Err? { return Err; }
          var b := Next(FromLe(len.value));
          r := if b.Err? || !utf8(b.value) then Err else Ok(Str(b.value));
        case 6 =>
          var len := Next(4);
          if len.Err? { return Err; }
          var sub := Next(1);
          if sub.Err? { return Err; }
          var b := Next(FromLe(len.value));
          r := if b.Err? then Err else Ok(Binary(sub.value[0], b.value));
        case 9 =>
          var n := NextInt(8);
          r := if n.Err? then Err else Ok(Timestamp(n.value));
        case 10 =>
          var b := Next(12);
          r := if b.Err? then Err else Ok(ObjectId(b.value));
        case _ => r := Err;
      }
    }

    /** `decode_set`. */
    method NextValues(utf8: Utf8, n: nat) returns (r: Result<seq<Value>>)
      requires Valid()
      modifies this
      ensures Valid() && |Left()| <= |old(Left())| && (r.Err? <==> DecodeValues(utf8, n, old(Left())).Err?)
      ensures r.Ok? ==> DecodeValues(utf8, n, old(Left())) == Ok((r.value, Left()))
    {
      hide DecodeValue;
      var out: seq<Value> := [];
      ghost var all := DecodeValues(utf8, n, Left());
      MoreValuesNone(all);
      for i := 0 to n
        invariant Valid() && |Left()| <= |old(Left())| && all == MoreValues(out, DecodeValues(utf8, n - i, Left()))
      {
        var v := NextValue(utf8);
        if v.Err? {
          return Err;
        }
        MoreValuesOne(out, v.value, DecodeValues(utf8, n - i - 1, Left()));
        out := out + [v.value];
      }
      assert out + [] == out;
      r := Ok(out);
    }

    /** `DocQuery::decode`. */
    method NextQuery(utf8: Utf8) returns (r: Result<Query>)
      requires Valid()
      modifies this
      ensures Valid() && |Left()| <= |old(Left())| && (r.Err? <==> Decode(utf8, old(Left())).Err?)
      ensures r.Ok? ==> Decode(utf8, old(Left())) == Ok((r.value, Left()))
      decreases |Left()|, 0
    {
      hide DecodeValue, DecodeValues, TakeField, TakeCount;
      var t := Next(1);
      if t.Err? { return Err; }
      var tag := t.value[0];
      if tag == 0 {
        r := Ok(All);
      } else if tag <= 6 {
        var f := NextField(utf8);
        if f.Err? { return Err; }
        var v := NextValue(utf8);
        r := if v.Err? then Err else Ok(Cmp(CmpOf(tag), f.value, v.value));
      } else if tag <= 8 {
        var f := NextField(utf8);
        if f.Err? { return Err; }
        var n := NextCount();
        if n.Err? { return Err; }
        var vs := NextValues(utf8, n.value);
        r := if vs.Err? then Err else Ok(InSet(tag == 8, f.value, vs.value));
      } else if tag == 9 {
        var f := NextField(utf8);
        if f.Err? { return Err; }
        var b := Next(1);
        r := if b.Err? then Err else Ok(Exists(f.value, b.value[0] != 0));
      } else if tag <= 11 {
        var n := NextCount();
        if n.Err? { return Err; }
        var qs := NextQueries(utf8, n.value);
        r := if qs.Err? then Err else Ok(Group(tag == 11, qs.value));
      } else if tag == 12 {
        var q := NextQuery(utf8);
        r := if q.Err? then Err else Ok(Not(q.value));
      } else {
        r := Err;
      }
    }

    /** `decode_group`. */
    method NextQueries(utf8: Utf8, n: nat) returns (r: Result<seq<Query>>)
      requires Valid()
      modifies this
      ensures Valid() && |Left()| <= |old(Left())| && (r.Err? <==> DecodeAll(utf8, n, old(Left())).Err?)
      ensures r.Ok? ==> DecodeAll(utf8, n, old(Left())) == Ok((r.value, Left()))
      decreases |Left()|, 1
    {
      hide Decode;
      var out: seq<Query> := [];
      ghost var all := DecodeAll(utf8, n, Left());
      MoreQueriesNone(all);
      for i := 0 to n
        invariant Valid() && |Left()| <= |old(Left())| && all == MoreQueries(out, DecodeAll(utf8, n - i, Left()))
      {
        var q := NextQuery(utf8);
        if q.Err? {
          return Err;
        }
        MoreQueriesOne(out, q.value, DecodeAll(utf8, n - i - 1, Left()));
        out := out + [q.value];
      }
      assert out + [] == out;
      r := Ok(out);
    }
  }

  ghost function MoreValues(out: seq<Value>, r: Result<(seq<Value>, seq<byte>)>): Result<(seq<Value>, seq<byte>)> {
    match r case Err => Err case Ok((vs, rest)) => Ok((out + vs, rest))
  }

  ghost function MoreQueries(out: seq<Query>, r: Result<(seq<Query>, seq<byte>)>): Result<(seq<Query>, seq<byte>)> {
    match r case Err => Err case Ok((qs, rest)) => Ok((out + qs, rest))
  }

  lemma MoreValuesNone(r: Result<(seq<Value>, seq<byte>)>)
    ensures MoreValues([], r) == r
  {
    if r.Ok? { assert [] + r.value.0 == r.value.0; }
  }

  lemma MoreValuesOne(out: seq<Value>, v: Value, r: Result<(seq<Value>, seq<byte>)>)
    ensures MoreValues(out, MoreValues([v], r)) == MoreValues(out + [v], r)
  {
    if r.Ok? { SeqAssoc(out, [v], r.value.0); }
  }

  lemma MoreQueriesNone(r: Result<(seq<Query>, seq<byte>)>)
    ensures MoreQueries([], r) == r
  {
    if r.Ok? { assert [] + r.value.0 == r.value.0; }
  }

  lemma MoreQueriesOne(out: seq<Query>, q: Query, r: Result<(seq<Query>, seq<byte>)>)
    ensures MoreQueries(out, MoreQueries([q], r)) == MoreQueries(out + [q], r)
  {
    if r.Ok? { SeqAssoc(out, [q], r.value.0); }
  }

  /** `from_bytes`: the whole input must be one query. */
  function WholeQuery(utf8: Utf8, s: seq<byte>): Result<Query> {
    match Decode(utf8, s) case Err => Err case Ok((q, rest)) => if rest == [] then Ok(q) else Err
  }

  method FromBytes(utf8: Utf8, bytes: seq<byte>) returns (r: Result<Query>)
    ensures r == WholeQuery(utf8, bytes)
  {
    var reader := new Reader(bytes);
    r := reader.NextQuery(utf8);
    if r.Ok? && reader.pos != |reader.buf| {
      r := Err;
    }
  }

  lemma WholeRoundTrip(utf8: Utf8, q: Query)
    requires QueryOk(utf8, q) && Encode(q).Some?
    ensures WholeQuery(utf8, Encode(q).value) == Ok(q)
  {
    QueryRoundTrip(utf8, q, []);
    assert Encode(q).value + [] == Encode(q).value;
    hide Decode, Encode;
  }

  // ----- The writer -----

  class Writer {
    var buf: seq<byte>

    constructor ()
      ensures buf == []
    {
      buf := [];
    }

    method Put(bytes: seq<byte>)
      modifies this
      ensures buf == old(buf) + bytes
    {
      buf := buf + bytes;
    }

    method PutField(f: seq<byte>) returns (ok: bool)
      modifies this
      ensures ok <==> FieldBytes(f).Some?
      ensures ok ==> buf == old(buf) + FieldBytes(f).value
    {
      ok := |f| < 0x1_0000;
      if ok {
        Put(ToLe(|f|, 2));
        Put(f);
        assert old(buf) + ToLe(|f|, 2) + f == old(buf) + (ToLe(|f|, 2) + f);
      }
    }

    method PutCount(n: nat) returns (ok: bool)
      modifies this
      ensures ok <==> CountBytes(n).Some?
      ensures ok ==> buf == old(buf) + CountBytes(n).value
    {
      ok := n < TWO32;
      if ok {
        Put(ToLe(n, 4));
      }
    }

    /** `encode_value`: the bytes of a value without its tag. */
    method PutBody(v: Value) returns (ok: bool)
      modifies this
      ensures ok <==> ValueBytes(v).Some?
      ensures ok ==> buf == old(buf) + ValueBytes(v).value
    {
      hide ToLe, Wrap;
      ok := true;
      match v {
        case Null =>
          assert buf + [] == buf;
        case Bool(b) =>
          Put([if b then 1 else 0]);
        case Int32(n) =>
          Put(ToLe(Wrap(n, 4), 4));
        case Int64(n) =>
          Put(ToLe(Wrap(n, 8), 8));
        case Double(bits) =>
          Put(bits);
        case Str(s) =>
          ok := PutCount(|s|);
          if ok {
            Put(s);
            assert old(buf) + ToLe(|s|, 4) + s == old(buf) + (ToLe(|s|, 4) + s);
          }
        case Binary(t, d) =>
          ok := PutCount(|d|);
          if ok {
            Put([t]);
            Put(d);
            assert old(buf) + ToLe(|d|, 4) + [t] + d == old(buf) + (ToLe(|d|, 4) + ([t] + d));
          }
        case Timestamp(n) =>
          Put(ToLe(Wrap(n, 8), 8));
        case ObjectId(id) =>
          Put(id);
      }
    }

    /** `encode_tagged`: the tag, then the value. */
    method PutValue(v: Value) returns (ok: bool)
      modifies this
      ensures ok <==> EncodeValue(v).Some?
      ensures ok ==> buf == old(buf) + EncodeValue(v).value
    {
      hide ValueBytes, Tag;
      Put([Tag(v)]);
      ok := PutBody(v);
      if ok {
        assert old(buf) + [Tag(v)] + ValueBytes(v).value == old(buf) + ([Tag(v)] + ValueBytes(v).value);
      }
    }

    method PutValues(vs: seq<Value>) returns (ok: bool)
      modifies this
      ensures ok <==> EncodeValues(vs).Some?
      ensures ok ==> buf == old(buf) + EncodeValues(vs).value
      decreases |vs|
    {
      hide EncodeValue;
      if vs == [] {
        return true;
      }
      ok := PutValue(vs[0]);
      if ok {
        ok := PutValues(vs[1..]);
      }
    }

    /** `DocQuery::encode`: fails where a length does not fit its prefix. */
    method PutQuery(q: Query) returns (ok: bool)
      modifies this
      ensures ok <==> Encode(q).Some?
      ensures ok ==> buf == old(buf) + Encode(q).value
      decreases q, 0
    {
      hide EncodeValue, EncodeValues, FieldBytes, CountBytes;
      match q {
        case All =>
          Put([0]);
          ok := true;
        case Cmp(op, f, v) =>
          Put([CmpTag(op)]);
          ok := PutField(f);
          if ok { ok := PutValue(v); }
        case InSet(neg, f, vs) =>
          Put([if neg then 8 else 7]);
          ok := PutField(f);
          if ok { ok := PutCount(|vs|); }
          if ok { ok := PutValues(vs); }
        case Exists(f, want) =>
          Put([9]);
          ok := PutField(f);
          if ok { Put([if want then 1 else 0]); }
        case Group(any, subs) =>
          Put([if any then 11 else 10]);
          ok := PutCount(|subs|);
          if ok { ok := PutQueries(subs); }
        case Not(inner) =>
          Put([12]);
          ok := PutQuery(inner);
      }
    }

    method PutQueries(qs: seq<Query>) returns (ok: bool)
      modifies this
      ensures ok <==> EncodeAll(qs).Some?
      ensures ok ==> buf == old(buf) + EncodeAll(qs).value
      decreases qs, |qs|
    {
      hide Encode;
      if qs == [] {
        return true;
      }
      ok := PutQuery(qs[0]);
      if ok {
        ok := PutQueries(qs[1..]);
      }
    }
  }
}
