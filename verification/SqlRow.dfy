/** The relational row encoding: null bitmap, fixed-width columns, offsets of the text columns, text. */
module SqlRow {
  import opened Bytes
  import opened Options
  import opened RecordHeader

  datatype Type = BoolT | Int64T | DoubleT | TimestampT | TextT

  /** A double is its eight bytes; text is its UTF-8 bytes. */
  datatype Value =
    | Null | BoolV(b: bool) | Int64V(n: int) | DoubleV(bits: seq<byte>) | TimestampV(t: int) | TextV(text: seq<byte>)

  const TWO63: int := 0x8000_0000_0000_0000

  /** What the row code takes from elsewhere: integer to double, timestamp parsing, and the UTF-8 check. */
  datatype Codec = Codec(toDouble: int -> seq<byte>, parse: seq<byte> -> Option<int>, utf8: seq<byte> -> bool)

  ghost predicate CodecOk(c: Codec) {
    && (forall n :: |c.toDouble(n)| == 8)
    && (forall s :: c.parse(s).Some? ==> -TWO63 <= c.parse(s).value < TWO63)
  }

  predicate ValueOk(c: Codec, v: Value) {
    match v
    case Int64V(n) => -TWO63 <= n < TWO63
    case TimestampV(t) => -TWO63 <= t < TWO63
    case DoubleV(bits) => |bits| == 8
    case TextV(s) => c.utf8(s)
    case _ => true
  }

  function Width(ty: Type): nat { match ty case BoolT => 1 case TextT => 0 case _ => 8 }

  predicate Matches(v: Value, ty: Type) {
    match v
    case Null => true
    case BoolV(_) => ty.BoolT?
    case Int64V(_) => ty.Int64T?
    case DoubleV(_) => ty.DoubleT?
    case TimestampV(_) => ty.TimestampT?
    case TextV(_) => ty.TextT?
  }

  /** A literal adapted to its column, or `None` where it does not fit. */
  function Coerce(c: Codec, ty: Type, v: Value): Option<Value> {
    var w := match (ty, v)
      case (DoubleT, Int64V(n)) => Some(DoubleV(c.toDouble(n)))
      case (TimestampT, TextV(s)) => (match c.parse(s) case None => None case Some(t) => Some(TimestampV(t)))
      case (TimestampT, Int64V(n)) => Some(TimestampV(n))
      case _ => Some(v);
    if w.Some? && Matches(w.value, ty) then w else None
  }

  /** The values a column takes: its own, integers for doubles and timestamps, and text that reads as a timestamp. */
  predicate Fits(c: Codec, ty: Type, v: Value) {
    || Matches(v, ty)
    || (v.Int64V? && (ty.DoubleT? || ty.TimestampT?))
    || (v.TextV? && ty.TimestampT? && c.parse(v.text).Some?)
  }

  /** `w` is what the column stores for `v`: the double nearest an integer, microseconds, or the value itself. */
  predicate Stores(c: Codec, ty: Type, v: Value, w: Value) {
    if v.Int64V? && ty.DoubleT? then w == DoubleV(c.toDouble(v.n))
    else if v.Int64V? && ty.TimestampT? then w == TimestampV(v.n)
    else if v.TextV? && ty.TimestampT? then c.parse(v.text).Some? && w == TimestampV(c.parse(v.text).value)
    else w == v
  }

  predicate StoresAll(c: Codec, types: seq<Type>, vals: seq<Value>, vs: seq<Value>) {
    |types| == |vals| == |vs| && forall i :: 0 <= i < |types| ==> Stores(c, types[i], vals[i], vs[i])
  }

  // ----- 64-bit integers -----

  function Unsigned(n: int): nat
    requires -TWO63 <= n < TWO63
  {
    if n >= 0 then n else n + TWO64
  }

  function Signed(u: nat): int { if u < TWO63 then u else u - TWO64 }

  lemma SignedRoundTrip(n: int)
    requires -TWO63 <= n < TWO63
    ensures Signed(FromLe(ToLe(Unsigned(n), 8))) == n
  {
    hide ToLe, FromLe;
    Le8Fits(Unsigned(n));
  }

  function EncodeFixed(v: Value): seq<byte> {
    match v
    case BoolV(b) => [if b then 1 else 0]
    case Int64V(n) => ToLe(if -TWO63 <= n < TWO63 then Unsigned(n) else 0, 8)
    case DoubleV(bits) => bits
    case TimestampV(t) => ToLe(if -TWO63 <= t < TWO63 then Unsigned(t) else 0, 8)
    case _ => []
  }

  function DecodeFixed(ty: Type, s: seq<byte>): Value
    requires |s| == Width(ty) && !ty.TextT?
  {
    match ty
    case BoolT => BoolV(s[0] != 0)
    case Int64T => Int64V(Signed(FromLe(s)))
    case DoubleT => DoubleV(s)
    case TimestampT => TimestampV(Signed(FromLe(s)))
    case TextT => Null
  }

  lemma FixedRoundTrip(c: Codec, ty: Type, v: Value)
    requires Matches(v, ty) && ValueOk(c, v) && !v.Null? && !ty.TextT?
    ensures |EncodeFixed(v)| == Width(ty) && DecodeFixed(ty, EncodeFixed(v)) == v
  {
    match v
    case Int64V(n) => SignedRoundTrip(n);
    case TimestampV(t) => SignedRoundTrip(t);
    case _ =>
  }

  // ----- The null bitmap -----

  /** `1 << k`. */
  function Bit(k: nat): nat { if k == 0 then 1 else 2 * Bit(k - 1) }

  predicate HasBit(x: nat, k: nat) { if k == 0 then x % 2 == 1 else HasBit(x / 2, k - 1) }

  /** `x |= 1 << k`, for a bit not set yet. */
  lemma {:induction false} SetBitIs(x: nat, k: nat, j: nat)
    requires !HasBit(x, k)
    ensures HasBit(x + Bit(k), j) <==> j == k || HasBit(x, j)
  {
    if k > 0 {
      assert (x + Bit(k)) / 2 == x / 2 + Bit(k - 1) && (x + Bit(k)) % 2 == x % 2;
      if j > 0 { SetBitIs(x / 2, k - 1, j - 1); }
    }
  }

  lemma {:induction false} SetBitFits(x: nat, k: nat, n: nat)
    requires !HasBit(x, k) && k < n && x < Bit(n)
    ensures x + Bit(k) < Bit(n)
  {
    assert Bit(n) == 2 * Bit(n - 1);
    HalfLess(x, Bit(n - 1));
    if k > 0 {
      assert Bit(k) == 2 * Bit(k - 1) && (HasBit(x, k) <==> HasBit(x / 2, k - 1));
      hide Bit, HasBit;
      SetBitFits(x / 2, k - 1, n - 1);
      HalfFits(x, Bit(k - 1), Bit(n - 1));
    }
  }

  lemma HalfLess(x: nat, m: nat)
    requires x < 2 * m
    ensures x / 2 < m
  {
  }

  lemma HalfFits(x: nat, b: nat, m: nat)
    requires x / 2 + b < m
    ensures x + 2 * b < 2 * m
  {
  }

  lemma ByteBits()
    ensures Bit(8) == 256
  {
    assert Bit(0) == 1 && Bit(2) == 4 && Bit(4) == 16 && Bit(6) == 64;
  }

  lemma {:induction false} ZeroBits(k: nat)
    ensures !HasBit(0, k)
  {
    if k > 0 { ZeroBits(k - 1); }
  }

  predicate IsNull(bitmap: seq<byte>, i: nat)
    requires i / 8 < |bitmap|
  {
    HasBit(bitmap[i / 8], i % 8)
  }

  function MarkNull(bitmap: seq<byte>, i: nat): (r: seq<byte>)
    requires i / 8 < |bitmap| && !IsNull(bitmap, i)
    ensures |r| == |bitmap|
  {
    ByteBits();
    SetBitFits(bitmap[i / 8], i % 8, 8);
    bitmap[i / 8 := bitmap[i / 8] + Bit(i % 8)]
  }

  lemma MarkNullIs(bitmap: seq<byte>, i: nat, j: nat)
    requires i / 8 < |bitmap| && j / 8 < |bitmap| && !IsNull(bitmap, i)
    ensures IsNull(MarkNull(bitmap, i), j) <==> j == i || IsNull(bitmap, j)
  {
    if j / 8 == i / 8 {
      SetBitIs(bitmap[i / 8], i % 8, j % 8);
      assert j == 8 * (j / 8) + j % 8 && i == 8 * (i / 8) + i % 8;
    }
  }

  // ----- Rows -----

  function BitmapLen(n: nat): nat { (n + 7) / 8 }

  lemma InBitmap(i: nat, n: nat)
    requires i < n
    ensures i / 8 < BitmapLen(n)
  {
  }

  function FixedPart(ty: Type, v: Value): seq<byte> {
    if v.Null? || ty.TextT? then [] else EncodeFixed(v)
  }

  /** The fixed-width bytes of the first `k` columns. */
  function FixedBytes(types: seq<Type>, vs: seq<Value>, k: nat): seq<byte>
    requires k <= |types| && k <= |vs|
  {
    if k == 0 then [] else FixedBytes(types, vs, k - 1) + FixedPart(types[k - 1], vs[k - 1])
  }

  /** The text columns among the first `k`. */
  function TextCols(types: seq<Type>, k: nat): (cols: seq<nat>)
    requires k <= |types|
    ensures forall j :: 0 <= j < |cols| ==> cols[j] < k && types[cols[j]].TextT?
  {
    if k == 0 then [] else if types[k - 1].TextT? then TextCols(types, k - 1) + [k - 1] else TextCols(types, k - 1)
  }

  function TextOf(v: Value): seq<byte> { if v.TextV? then v.text else [] }

  /** The text of the first `j` of the columns `cols`. */
  function TextBytes(vs: seq<Value>, cols: seq<nat>, j: nat): seq<byte>
    requires j <= |cols| && forall i :: 0 <= i < |cols| ==> cols[i] < |vs|
  {
    if j == 0 then [] else TextBytes(vs, cols, j - 1) + TextOf(vs[cols[j - 1]])
  }

  function OffsetBytes(vs: seq<Value>, cols: seq<nat>, start: nat, j: nat): (s: seq<byte>)
    requires j <= |cols| && forall i :: 0 <= i < |cols| ==> cols[i] < |vs|
    ensures |s| == 2 * j
  {
    if j == 0 then [] else OffsetBytes(vs, cols, start, j - 1) + ToLe(start + |TextBytes(vs, cols, j - 1)|, 2)
  }

  /** Where the text starts. */
  function TextStart(types: seq<Type>, vs: seq<Value>): nat
    requires |types| == |vs|
  {
    BitmapLen(|types|) + |FixedBytes(types, vs, |types|)| + 2 * |TextCols(types, |types|)|
  }

  /** The bytes after the null bitmap. */
  function Body(types: seq<Type>, vs: seq<Value>): seq<byte>
    requires |types| == |vs|
  {
    var n, cols := |types|, TextCols(types, |types|);
    FixedBytes(types, vs, n) + OffsetBytes(vs, cols, TextStart(types, vs), |cols|) + TextBytes(vs, cols, |cols|)
  }

  ghost predicate Marks(bitmap: seq<byte>, vs: seq<Value>, k: nat, n: nat)
    requires k <= |vs| && |bitmap| == BitmapLen(n)
  {
    forall i :: 0 <= i < n ==> (InBitmap(i, n); IsNull(bitmap, i) <==> i < k && vs[i].Null?)
  }

  /** `s` is the encoding of the row `vs`. */
  ghost predicate Encoded(types: seq<Type>, vs: seq<Value>, s: seq<byte>) {
    && |types| == |vs| && |s| >= BitmapLen(|types|)
    && Marks(s[..BitmapLen(|types|)], vs, |types|, |types|) && s[BitmapLen(|types|)..] == Body(types, vs)
  }

  // ----- Encoding -----

  /** The row after coercion, or `None` if the shapes differ or a value does not fit its column. */
  function CoerceRow(c: Codec, types: seq<Type>, vals: seq<Value>, k: nat): Option<seq<Value>>
    requires k <= |types| == |vals|
  {
    if k == 0 then Some([])
    else
      match (CoerceRow(c, types, vals, k - 1), Coerce(c, types[k - 1], vals[k - 1]))
      case (Some(vs), Some(v)) => Some(vs + [v])
      case _ => None
  }

  /** Every column stores what it should for its value, or some value does not fit its column. */
  lemma {:induction false} CoercedStores(c: Codec, types: seq<Type>, vals: seq<Value>, k: nat)
    requires k <= |types| == |vals|
    ensures CoerceRow(c, types, vals, k).Some? <==> forall i :: 0 <= i < k ==> Fits(c, types[i], vals[i])
    ensures CoerceRow(c, types, vals, k).Some? ==>
      var vs := CoerceRow(c, types, vals, k).value;
      |vs| == k && forall i :: 0 <= i < k ==> Stores(c, types[i], vals[i], vs[i])
  {
    if k > 0 {
      CoercedStores(c, types, vals, k - 1);
      CoerceOne(c, types[k - 1], vals[k - 1]);
      hide Coerce, Fits, Stores;
    }
  }

  lemma CoerceOne(c: Codec, ty: Type, v: Value)
    ensures Coerce(c, ty, v).Some? <==> Fits(c, ty, v)
    ensures Coerce(c, ty, v).Some? ==> Stores(c, ty, v, Coerce(c, ty, v).value)
  {
  }

  /** A coerced row matches its columns, and each column stores what it should for the value given. */
  lemma {:induction false} CoercedRow(c: Codec, types: seq<Type>, vals: seq<Value>, k: nat)
    requires CodecOk(c) && k <= |types| == |vals| && CoerceRow(c, types, vals, k).Some?
    requires forall i :: 0 <= i < |vals| ==> ValueOk(c, vals[i])
    ensures var vs := CoerceRow(c, types, vals, k).value;
      |vs| == k && forall i :: 0 <= i < k ==>
        Matches(vs[i], types[i]) && ValueOk(c, vs[i]) && Stores(c, types[i], vals[i], vs[i])
          && (Matches(vals[i], types[i]) || types[i].TextT? ==> vs[i] == vals[i])
  {
    CoercedStores(c, types, vals, k);
    if k > 0 { CoercedRow(c, types, vals, k - 1); }
  }

  lemma {:induction false} FixedPrefix(types: seq<Type>, vs: seq<Value>, vs': seq<Value>, k: nat)
    requires k <= |types| && k <= |vs| && vs <= vs'
    ensures FixedBytes(types, vs, k) == FixedBytes(types, vs', k)
  {
    if k > 0 { FixedPrefix(types, vs, vs', k - 1); }
  }

  lemma MarksStart(n: nat)
    ensures Marks(seq(BitmapLen(n), _ => 0), [], 0, n)
  {
    var bitmap := seq(BitmapLen(n), _ => 0);
    forall i | 0 <= i < n ensures (InBitmap(i, n); !IsNull(bitmap, i)) {
      InBitmap(i, n);
      ZeroBits(i % 8);
    }
  }

  lemma MarksNext(bitmap: seq<byte>, vs: seq<Value>, v: Value, n: nat)
    requires |bitmap| == BitmapLen(n) && |vs| < n && Marks(bitmap, vs, |vs|, n)
    ensures |vs| / 8 < |bitmap| && !IsNull(bitmap, |vs|)
    ensures Marks(if v.Null? then MarkNull(bitmap, |vs|) else bitmap, vs + [v], |vs| + 1, n)
  {
    InBitmap(|vs|, n);
    forall i | 0 <= i < n
      ensures (InBitmap(i, n); IsNull(if v.Null? then MarkNull(bitmap, |vs|) else bitmap, i) <==>
        i < |vs| + 1 && (vs + [v])[i].Null?)
    {
      InBitmap(i, n);
      assert IsNull(bitmap, i) <==> i < |vs| && vs[i].Null?;
      if v.Null? { MarkNullIs(bitmap, |vs|, i); }
    }
  }

  /** The first loop: bitmap and fixed-width bytes, stopping at the first value that does not fit. */
  method EncodeFixedPart(c: Codec, types: seq<Type>, vals: seq<Value>)
    returns (ok: bool, bitmap: seq<byte>, fixed: seq<byte>)
    requires |types| == |vals|
    ensures ok <==> CoerceRow(c, types, vals, |types|).Some?
    ensures ok ==> var vs := CoerceRow(c, types, vals, |types|).value;
      |vs| == |types| && |bitmap| == BitmapLen(|types|) && Marks(bitmap, vs, |types|, |types|)
        && fixed == FixedBytes(types, vs, |types|)
  {
    var n := |types|;
    bitmap, fixed := seq(BitmapLen(n), _ => 0), [];
    ghost var vs: seq<Value> := [];
    SofarStart(c, types, vals, bitmap);
    hide Coerce, CoerceRow, EncodeFixed, IsNull, BitmapLen, MarkNull, FixedPart, Sofar, Marks, FixedBytes;
    for i := 0 to n
      invariant Sofar(c, types, vals, i, vs, bitmap, fixed)
    {
      var w := Coerce(c, types[i], vals[i]);
      SofarNext(c, types, vals, i, vs, bitmap, fixed);
      if w.None? {
        CoerceFails(c, types, vals, i + 1, n);
        return false, bitmap, fixed;
      }
      if w.value.Null? {
        bitmap := MarkNull(bitmap, i);
      }
      fixed := fixed + FixedPart(types[i], w.value);
      vs := vs + [w.value];
    }
    SofarAll(c, types, vals, vs, bitmap, fixed);
    ok := true;
  }

  /** After `i` columns. */
  ghost predicate Sofar(c: Codec, types: seq<Type>, vals: seq<Value>, i: nat, vs: seq<Value>, bitmap: seq<byte>,
                        fixed: seq<byte>)
  {
    && i <= |types| == |vals| && |vs| == i && CoerceRow(c, types, vals, i) == Some(vs)
    && |bitmap| == BitmapLen(|types|) && Marks(bitmap, vs, i, |types|) && fixed == FixedBytes(types, vs, i)
  }

  lemma SofarStart(c: Codec, types: seq<Type>, vals: seq<Value>, bitmap: seq<byte>)
    requires |types| == |vals| && bitmap == seq(BitmapLen(|types|), _ => 0)
    ensures Sofar(c, types, vals, 0, [], bitmap, [])
  {
    MarksStart(|types|);
  }

  lemma SofarAll(c: Codec, types: seq<Type>, vals: seq<Value>, vs: seq<Value>, bitmap: seq<byte>, fixed: seq<byte>)
    requires Sofar(c, types, vals, |types|, vs, bitmap, fixed)
    ensures CoerceRow(c, types, vals, |types|) == Some(vs) && |vs| == |types| && |bitmap| == BitmapLen(|types|)
    ensures Marks(bitmap, vs, |types|, |types|) && fixed == FixedBytes(types, vs, |types|)
  {
  }

  lemma SofarNext(c: Codec, types: seq<Type>, vals: seq<Value>, i: nat, vs: seq<Value>, bitmap: seq<byte>,
                  fixed: seq<byte>)
    requires Sofar(c, types, vals, i, vs, bitmap, fixed) && i < |types|
    ensures i / 8 < |bitmap| && !IsNull(bitmap, i)
    ensures match Coerce(c, types[i], vals[i])
      case None => CoerceRow(c, types, vals, i + 1).None?
      case Some(v) => Sofar(c, types, vals, i + 1, vs + [v], if v.Null? then MarkNull(bitmap, i) else bitmap,
        fixed + FixedPart(types[i], v))
  {
    var w := Coerce(c, types[i], vals[i]);
    assert CoerceRow(c, types, vals, i + 1) == if w.Some? then Some(vs + [w.value]) else None;
    if w.Some? {
      MarksNext(bitmap, vs, w.value, |types|);
      FixedPrefix(types, vs, vs + [w.value], i);
    } else {
      MarksNext(bitmap, vs, Null, |types|);
    }
    hide Coerce, CoerceRow, Marks, MarkNull, IsNull, FixedPart;
  }

  lemma {:induction false} CoerceFails(c: Codec, types: seq<Type>, vals: seq<Value>, k: nat, n: nat)
    requires k <= n <= |types| == |vals| && CoerceRow(c, types, vals, k).None?
    ensures CoerceRow(c, types, vals, n).None?
  {
    if n > k { CoerceFails(c, types, vals, k, n - 1); }
  }

  method EncodeRow(c: Codec, types: seq<Type>, vals: seq<Value>) returns (r: Result<seq<byte>>)
    requires CodecOk(c) && forall i :: 0 <= i < |vals| ==> ValueOk(c, vals[i])
    ensures r.Ok? <==> |types| == |vals| && forall i :: 0 <= i < |types| ==> Fits(c, types[i], vals[i])
    ensures r.Ok? ==> exists vs :: StoresAll(c, types, vals, vs) && Encoded(types, vs, r.value)
    ensures r.Ok? ==> CoerceRow(c, types, vals, |types|).Some? && |types| == |vals|
    ensures r.Ok? ==> Encoded(types, CoerceRow(c, types, vals, |types|).value, r.value)
  {
    hide Fits, Stores;
    if |types| != |vals| {
      return Err;
    }
    CoercedStores(c, types, vals, |types|);
    var ok, bitmap, fixed := EncodeFixedPart(c, types, vals);
    if !ok {
      return Err;
    }
    CoercedRow(c, types, vals, |types|);
    assert StoresAll(c, types, vals, CoerceRow(c, types, vals, |types|).value);
    hide CodecOk, CoerceRow, Encoded, Marks, ValueOk, Matches, Coerce;
    var out := Finish(types, vals, CoerceRow(c, types, vals, |types|).value, bitmap, fixed);
    r := Ok(out);
  }

  method Finish(types: seq<Type>, vals: seq<Value>, ghost vs: seq<Value>, bitmap: seq<byte>, fixed: seq<byte>)
    returns (out: seq<byte>)
    requires |types| == |vals| == |vs| && |bitmap| == BitmapLen(|types|)
    requires Marks(bitmap, vs, |types|, |types|) && fixed == FixedBytes(types, vs, |types|)
    requires forall i :: 0 <= i < |types| ==> types[i].TextT? ==> vs[i] == vals[i]
    ensures Encoded(types, vs, out)
  {
    hide Marks, FixedBytes, TextBytes, OffsetBytes, Encoded;
    var cols := TextCols(types, |types|);
    var start := BitmapLen(|types|) + |fixed| + 2 * |cols|;
    var offsets, text := EncodeText(types, vals, vs, cols, start);
    Assemble(types, vs, bitmap);
    out := bitmap + (fixed + offsets + text);
  }

  lemma Assemble(types: seq<Type>, vs: seq<Value>, bitmap: seq<byte>)
    requires |types| == |vs| && |bitmap| == BitmapLen(|types|) && Marks(bitmap, vs, |types|, |types|)
    ensures Encoded(types, vs, bitmap + Body(types, vs))
  {
    hide Body, Marks;
    var s := bitmap + Body(types, vs);
    assert s[..|bitmap|] == bitmap && s[|bitmap|..] == Body(types, vs);
  }

  /** The second loop: one 16-bit offset per text column, and the text. */
  method EncodeText(types: seq<Type>, vals: seq<Value>, ghost vs: seq<Value>, cols: seq<nat>, start: nat)
    returns (offsets: seq<byte>, text: seq<byte>)
    requires |types| == |vals| == |vs|
    requires forall j :: 0 <= j < |cols| ==> cols[j] < |types| && types[cols[j]].TextT?
    requires forall i :: 0 <= i < |types| ==> types[i].TextT? ==> vs[i] == vals[i]
    ensures offsets == OffsetBytes(vs, cols, start, |cols|) && text == TextBytes(vs, cols, |cols|)
  {
    offsets, text := [], [];
    assert Written(vs, cols, start, 0, offsets, text);
    hide ToLe, Written;
    for j := 0 to |cols|
      invariant Written(vs, cols, start, j, offsets, text)
    {
      OneMore(vs, cols, start, j, offsets, text);
      var v := vals[cols[j]];
      offsets := offsets + ToLe(start + |text|, 2);
      text := text + if v.TextV? then v.text else [];
    }
    AllWritten(vs, cols, start, offsets, text);
  }

  /** After `j` text columns. */
  ghost predicate Written(vs: seq<Value>, cols: seq<nat>, start: nat, j: nat, offsets: seq<byte>, text: seq<byte>) {
    && j <= |cols| && (forall i :: 0 <= i < |cols| ==> cols[i] < |vs|)
    && offsets == OffsetBytes(vs, cols, start, j) && text == TextBytes(vs, cols, j)
  }

  lemma OneMore(vs: seq<Value>, cols: seq<nat>, start: nat, j: nat, offsets: seq<byte>, text: seq<byte>)
    requires Written(vs, cols, start, j, offsets, text) && j < |cols|
    ensures cols[j] < |vs|
    ensures Written(vs, cols, start, j + 1, offsets + ToLe(start + |text|, 2), text + TextOf(vs[cols[j]]))
  {
    hide ToLe;
  }

  lemma AllWritten(vs: seq<Value>, cols: seq<nat>, start: nat, offsets: seq<byte>, text: seq<byte>)
    requires Written(vs, cols, start, |cols|, offsets, text)
    ensures (forall i :: 0 <= i < |cols| ==> cols[i] < |vs|)
    ensures offsets == OffsetBytes(vs, cols, start, |cols|) && text == TextBytes(vs, cols, |cols|)
  {
  }

  // ----- Decoding -----

  /** The fixed-width columns among the first `k`, and where the next one is read; text columns stay null. */
  function DecodeFixedUpTo(types: seq<Type>, s: seq<byte>, k: nat): Result<(seq<Value>, nat)>
    requires k <= |types| && BitmapLen(|types|) <= |s|
  {
    if k == 0 then Ok(([], BitmapLen(|types|)))
    else
      match DecodeFixedUpTo(types, s, k - 1)
      case Err => Err
      case Ok((vs, at)) =>
        InBitmap(k - 1, |types|);
        var ty := types[k - 1];
        if IsNull(s, k - 1) || ty.TextT? then Ok((vs + [Null], at))
        else if at + Width(ty) > |s| then Err
        else Ok((vs + [DecodeFixed(ty, s[at..at + Width(ty)])], at + Width(ty)))
  }

  function ReadOffsets(s: seq<byte>, at: nat, m: nat): Result<seq<nat>> {
    if m == 0 then Ok([])
    else
      match ReadOffsets(s, at, m - 1)
      case Err => Err
      case Ok(offs) =>
        var p := at + 2 * (m - 1);
        if p + 2 > |s| then Err else Ok(offs + [FromLe(s[p..p + 2])])
  }

  /** Fill in the first `j` text columns. */
  function DecodeTextUpTo(c: Codec, types: seq<Type>, s: seq<byte>, cols: seq<nat>, offs: seq<nat>, vs: seq<Value>,
                          j: nat): (r: Result<seq<Value>>)
    requires j <= |cols| == |offs| && |vs| == |types| && BitmapLen(|types|) <= |s|
    requires forall i :: 0 <= i < |cols| ==> cols[i] < |types|
    ensures r.Ok? ==> |r.value| == |vs|
  {
    if j == 0 then Ok(vs)
    else
      match DecodeTextUpTo(c, types, s, cols, offs, vs, j - 1)
      case Err => Err
      case Ok(done) =>
        var i := cols[j - 1];
        InBitmap(i, |types|);
        if IsNull(s, i) then Ok(done)
        else
          var lo, hi := offs[j - 1], if j < |offs| then offs[j] else |s|;
          if lo > hi || hi > |s| || !c.utf8(s[lo..hi]) then Err else Ok(done[i := TextV(s[lo..hi])])
  }

  function Decode(c: Codec, types: seq<Type>, s: seq<byte>): Result<seq<Value>> {
    if |s| < BitmapLen(|types|) then Err
    else
      match DecodeFixedUpTo(types, s, |types|)
      case Err => Err
      case Ok((vs, at)) =>
        var cols := TextCols(types, |types|);
        match ReadOffsets(s, at, |cols|)
        case Err => Err
        case Ok(offs) =>
          OffsetCount(s, at, |cols|);
          DecodedCount(types, s, |types|);
          DecodeTextUpTo(c, types, s, cols, offs, vs, |cols|)
  }

  lemma {:induction false} OffsetCount(s: seq<byte>, at: nat, m: nat)
    ensures ReadOffsets(s, at, m).Ok? ==> |ReadOffsets(s, at, m).value| == m
  {
    if m > 0 { OffsetCount(s, at, m - 1); }
  }

  lemma {:induction false} DecodedCount(types: seq<Type>, s: seq<byte>, k: nat)
    requires k <= |types| && BitmapLen(|types|) <= |s|
    ensures DecodeFixedUpTo(types, s, k).Ok? ==> |DecodeFixedUpTo(types, s, k).value.0| == k
  {
    if k > 0 { DecodedCount(types, s, k - 1); }
  }

  // ----- Round trip -----

  /** The row with its text columns still null. */
  function NoText(types: seq<Type>, vs: seq<Value>, k: nat): (r: seq<Value>)
    requires k <= |types| == |vs|
    ensures |r| == k && forall i :: 0 <= i < k ==> r[i] == if types[i].TextT? then Null else vs[i]
  {
    if k == 0 then [] else NoText(types, vs, k - 1) + [if types[k - 1].TextT? then Null else vs[k - 1]]
  }

  ghost predicate RowOk(c: Codec, types: seq<Type>, vs: seq<Value>) {
    |types| == |vs| && forall i :: 0 <= i < |vs| ==> Matches(vs[i], types[i]) && ValueOk(c, vs[i])
  }

  lemma {:induction false} FixedGrows(types: seq<Type>, vs: seq<Value>, k: nat, n: nat)
    requires k <= n <= |types| == |vs|
    ensures FixedBytes(types, vs, k) <= FixedBytes(types, vs, n)
  {
    if n > k { FixedGrows(types, vs, k, n - 1); }
  }

  /** A run of bytes in the middle of the encoding, read at its place. */
  lemma ReadBack(s: seq<byte>, at: nat, part: seq<byte>, a: nat, b: nat)
    requires at <= |s| && part <= s[at..] && a <= b <= |part|
    ensures at + b <= |s| && s[at + a..at + b] == part[a..b]
  {
    forall i | 0 <= i < b - a ensures s[at + a..at + b][i] == part[a..b][i] {
      assert s[at..][a + i] == part[a + i];
    }
  }

  lemma MidPart(s: seq<byte>, at: nat, front: seq<byte>, part: seq<byte>)
    requires at <= |s| && front + part <= s[at..]
    ensures at + |front| + |part| <= |s| && s[at + |front|..at + |front| + |part|] == part
  {
    forall i | 0 <= i < |part| ensures s[at + |front|..at + |front| + |part|][i] == part[i] {
      assert (front + part)[|front| + i] == s[at..][|front| + i];
    }
  }

  lemma NullAt(types: seq<Type>, vs: seq<Value>, s: seq<byte>, i: nat)
    requires Encoded(types, vs, s) && i < |types|
    ensures i / 8 < |s| && (IsNull(s, i) <==> vs[i].Null?)
  {
    InBitmap(i, |types|);
    var bitmap := s[..BitmapLen(|types|)];
    assert IsNull(bitmap, i) <==> i < |types| && vs[i].Null?;
    assert bitmap[i / 8] == s[i / 8];
  }

  lemma {:induction false} FixedBack(c: Codec, types: seq<Type>, vs: seq<Value>, s: seq<byte>, k: nat)
    requires RowOk(c, types, vs) && Encoded(types, vs, s) && k <= |types|
    ensures DecodeFixedUpTo(types, s, k) == Ok((NoText(types, vs, k), BitmapLen(|types|) + |FixedBytes(types, vs, k)|))
  {
    hide DecodeFixedUpTo, Marks, Body, IsNull, EncodeFixed, DecodeFixed, BitmapLen, ValueOk, Matches;
    if k == 0 {
      DecodeNone(types, s);
    } else {
      FixedBack(c, types, vs, s, k - 1);
      NullAt(types, vs, s, k - 1);
      DecodeNext(types, s, k, NoText(types, vs, k - 1), BitmapLen(|types|) + |FixedBytes(types, vs, k - 1)|);
      if !vs[k - 1].Null? && !types[k - 1].TextT? {
        FixedRoundTrip(c, types[k - 1], vs[k - 1]);
        FixedSlice(types, vs, s, k);
      }
    }
  }

  lemma DecodeNone(types: seq<Type>, s: seq<byte>)
    requires BitmapLen(|types|) <= |s|
    ensures DecodeFixedUpTo(types, s, 0) == Ok(([], BitmapLen(|types|)))
  {
  }

  lemma DecodeNext(types: seq<Type>, s: seq<byte>, k: nat, vs: seq<Value>, at: nat)
    requires 0 < k <= |types| && BitmapLen(|types|) <= |s| && DecodeFixedUpTo(types, s, k - 1) == Ok((vs, at))
    ensures (k - 1) / 8 < |s|
    ensures DecodeFixedUpTo(types, s, k) ==
      if IsNull(s, k - 1) || types[k - 1].TextT? then Ok((vs + [Null], at))
      else if at + Width(types[k - 1]) > |s| then Err
      else Ok((vs + [DecodeFixed(types[k - 1], s[at..at + Width(types[k - 1])])], at + Width(types[k - 1])))
  {
    InBitmap(k - 1, |types|);
    hide IsNull, DecodeFixed;
  }

  lemma FixedSlice(types: seq<Type>, vs: seq<Value>, s: seq<byte>, k: nat)
    requires Encoded(types, vs, s) && 0 < k <= |types|
    ensures var at := BitmapLen(|types|) + |FixedBytes(types, vs, k - 1)|;
      var part := FixedPart(types[k - 1], vs[k - 1]);
      at + |part| <= |s| && s[at..at + |part|] == part
  {
    hide FixedBytes, FixedPart, Marks, TextBytes, OffsetBytes, BitmapLen, TextCols, TextStart;
    var nb := BitmapLen(|types|);
    FixedIn(types, vs, k);
    assert FixedBytes(types, vs, |types|) <= s[nb..];
    PrefixOf(FixedBytes(types, vs, k - 1) + FixedPart(types[k - 1], vs[k - 1]), FixedBytes(types, vs, |types|),
      s[nb..]);
    MidPart(s, nb, FixedBytes(types, vs, k - 1), FixedPart(types[k - 1], vs[k - 1]));
  }

  lemma PrefixOf(a: seq<byte>, b: seq<byte>, c: seq<byte>)
    requires a <= b <= c
    ensures a <= c
  {
  }

  lemma FixedIn(types: seq<Type>, vs: seq<Value>, k: nat)
    requires 0 < k <= |types| == |vs|
    ensures FixedBytes(types, vs, k - 1) + FixedPart(types[k - 1], vs[k - 1]) <= FixedBytes(types, vs, |types|)
  {
    FixedGrows(types, vs, k, |types|);
    hide FixedPart;
  }

  lemma {:induction false} OffsetGrows(vs: seq<Value>, cols: seq<nat>, start: nat, j: nat, m: nat)
    requires j <= m <= |cols| && forall i :: 0 <= i < |cols| ==> cols[i] < |vs|
    ensures OffsetBytes(vs, cols, start, j) <= OffsetBytes(vs, cols, start, m)
  {
    hide ToLe, TextBytes;
    if m > j { OffsetGrows(vs, cols, start, j, m - 1); }
  }

  lemma {:induction false} TextGrows(vs: seq<Value>, cols: seq<nat>, j: nat, m: nat)
    requires j <= m <= |cols| && forall i :: 0 <= i < |cols| ==> cols[i] < |vs|
    ensures TextBytes(vs, cols, j) <= TextBytes(vs, cols, m)
  {
    if m > j { TextGrows(vs, cols, j, m - 1); }
  }

  /** Offset `j` says where the text of column `cols[j]` starts, in 16 bits. */
  function Offsets(vs: seq<Value>, cols: seq<nat>, start: nat, m: nat): (r: seq<nat>)
    requires m <= |cols| && forall i :: 0 <= i < |cols| ==> cols[i] < |vs|
    ensures |r| == m && forall j :: 0 <= j < m ==> r[j] == (start + |TextBytes(vs, cols, j)|) % 0x1_0000
  {
    if m == 0 then [] else Offsets(vs, cols, start, m - 1) + [(start + |TextBytes(vs, cols, m - 1)|) % 0x1_0000]
  }

  /** No offset is too large for its 16 bits. The end of the last text has no offset and may be anywhere. */
  ghost predicate Fit(vs: seq<Value>, cols: seq<nat>, start: nat)
    requires forall i :: 0 <= i < |cols| ==> cols[i] < |vs|
  {
    forall j :: 0 <= j < |cols| ==> start + |TextBytes(vs, cols, j)| < 0x1_0000
  }

  lemma {:induction false} OffsetsBack(vs: seq<Value>, cols: seq<nat>, start: nat, s: seq<byte>, at: nat, m: nat)
    requires m <= |cols| && forall i :: 0 <= i < |cols| ==> cols[i] < |vs|
    requires at <= |s| && OffsetBytes(vs, cols, start, |cols|) <= s[at..]
    ensures ReadOffsets(s, at, m) == Ok(Offsets(vs, cols, start, m))
  {
    hide ReadOffsets, OffsetBytes, TextBytes;
    if m == 0 {
      ReadNone(s, at);
    } else {
      OffsetsBack(vs, cols, start, s, at, m - 1);
      OffsetSlice(vs, cols, start, s, at, m);
      ReadNext(s, at, m, Offsets(vs, cols, start, m - 1));
    }
  }

  lemma OffsetSlice(vs: seq<Value>, cols: seq<nat>, start: nat, s: seq<byte>, at: nat, m: nat)
    requires 0 < m <= |cols| && forall i :: 0 <= i < |cols| ==> cols[i] < |vs|
    requires at <= |s| && OffsetBytes(vs, cols, start, |cols|) <= s[at..]
    ensures at + 2 * m <= |s|
      && FromLe(s[at + 2 * (m - 1)..at + 2 * m]) == (start + |TextBytes(vs, cols, m - 1)|) % 0x1_0000
  {
    hide OffsetBytes, TextBytes, ToLe, FromLe;
    var v := start + |TextBytes(vs, cols, m - 1)|;
    var all, front := OffsetBytes(vs, cols, start, |cols|), OffsetBytes(vs, cols, start, m - 1);
    OffsetPrefix(vs, cols, start, m);
    Le2Wraps(v);
    LastTwo(all, front, ToLe(v, 2), m);
    ReadBack(s, at, all, 2 * (m - 1), 2 * m);
  }

  lemma OffsetPrefix(vs: seq<Value>, cols: seq<nat>, start: nat, m: nat)
    requires 0 < m <= |cols| && forall i :: 0 <= i < |cols| ==> cols[i] < |vs|
    ensures OffsetBytes(vs, cols, start, m - 1) + ToLe(start + |TextBytes(vs, cols, m - 1)|, 2)
      <= OffsetBytes(vs, cols, start, |cols|)
  {
    OffsetGrows(vs, cols, start, m, |cols|);
    hide ToLe, TextBytes;
  }

  lemma LastTwo(all: seq<byte>, front: seq<byte>, two: seq<byte>, m: nat)
    requires m > 0 && |front| == 2 * (m - 1) && |two| == 2 && front + two <= all
    ensures 2 * m <= |all| && all[2 * (m - 1)..2 * m] == two
  {
    assert all[..2 * m] == front + two;
  }

  lemma Le2Wraps(v: nat)
    ensures FromLe(ToLe(v, 2)) == v % 0x1_0000
  {
    LeRoundTrip(v, 2);
  }

  lemma ReadNone(s: seq<byte>, at: nat)
    ensures ReadOffsets(s, at, 0) == Ok([])
  {
  }

  lemma ReadNext(s: seq<byte>, at: nat, m: nat, offs: seq<nat>)
    requires m > 0 && ReadOffsets(s, at, m - 1) == Ok(offs) && at + 2 * m <= |s|
    ensures ReadOffsets(s, at, m) == Ok(offs + [FromLe(s[at + 2 * (m - 1)..at + 2 * m])])
  {
    hide FromLe;
  }

  /** The row with the first `j` text columns filled in. */
  ghost predicate FilledIn(types: seq<Type>, vs: seq<Value>, cols: seq<nat>, j: nat, r: seq<Value>) {
    && |r| == |vs| == |types| && j <= |cols|
    && forall i :: 0 <= i < |vs| ==> r[i] == if types[i].TextT? && i !in cols[..j] then Null else vs[i]
  }

  ghost predicate TextPlaced(vs: seq<Value>, cols: seq<nat>, start: nat, s: seq<byte>) {
    && (forall i :: 0 <= i < |cols| ==> cols[i] < |vs|)
    && start <= |s| && s[start..] == TextBytes(vs, cols, |cols|)
  }

  lemma TextSlice(vs: seq<Value>, cols: seq<nat>, start: nat, s: seq<byte>, j: nat)
    requires TextPlaced(vs, cols, start, s) && 0 < j <= |cols|
    ensures var lo := start + |TextBytes(vs, cols, j - 1)|;
      var hi := if j < |cols| then start + |TextBytes(vs, cols, j)| else |s|;
      lo <= hi <= |s| && s[lo..hi] == TextOf(vs[cols[j - 1]])
  {
    hide TextBytes, TextOf;
    TextIn(vs, cols, j);
    MidPart(s, start, TextBytes(vs, cols, j - 1), TextOf(vs[cols[j - 1]]));
  }

  lemma TextIn(vs: seq<Value>, cols: seq<nat>, j: nat)
    requires 0 < j <= |cols| && forall i :: 0 <= i < |cols| ==> cols[i] < |vs|
    ensures TextBytes(vs, cols, j) == TextBytes(vs, cols, j - 1) + TextOf(vs[cols[j - 1]])
      <= TextBytes(vs, cols, |cols|)
  {
    TextGrows(vs, cols, j, |cols|);
    hide TextOf;
  }

  lemma {:induction false} TextBack(c: Codec, types: seq<Type>, vs: seq<Value>, s: seq<byte>, cols: seq<nat>,
                                    start: nat, base: seq<Value>, j: nat)
    requires RowOk(c, types, vs) && Encoded(types, vs, s) && TextPlaced(vs, cols, start, s) && j <= |cols|
    requires |base| == |types| && FilledIn(types, vs, cols, 0, base) && forall i :: 0 <= i < |cols| ==>
      types[cols[i]].TextT?
    requires Fit(vs, cols, start)
    ensures var r := DecodeTextUpTo(c, types, s, cols, Offsets(vs, cols, start, |cols|), base, j);
      r.Ok? && FilledIn(types, vs, cols, j, r.value)
  {
    hide DecodeTextUpTo, Marks, Body, IsNull, TextBytes, BitmapLen, FilledIn, Matches, ValueOk;
    var offs := Offsets(vs, cols, start, |cols|);
    if j == 0 {
      TextNone(c, types, s, cols, offs, base);
    } else {
      TextBack(c, types, vs, s, cols, start, base, j - 1);
      var i := cols[j - 1];
      NullAt(types, vs, s, i);
      TextSlice(vs, cols, start, s, j);
      OffsetsPlain(vs, cols, start);
      TextValue(c, types[i], vs[i]);
      var done := DecodeTextUpTo(c, types, s, cols, offs, base, j - 1).value;
      TextNext(c, types, s, cols, offs, base, j, done);
      FillNext(types, vs, cols, j, done);
    }
  }

  lemma OffsetsPlain(vs: seq<Value>, cols: seq<nat>, start: nat)
    requires (forall i :: 0 <= i < |cols| ==> cols[i] < |vs|) && Fit(vs, cols, start)
    ensures var offs := Offsets(vs, cols, start, |cols|);
      forall j :: 0 <= j < |cols| ==> offs[j] == start + |TextBytes(vs, cols, j)|
  {
    hide TextBytes;
  }

  lemma TextValue(c: Codec, ty: Type, v: Value)
    requires ty.TextT? && Matches(v, ty) && ValueOk(c, v)
    ensures v.Null? || (v == TextV(TextOf(v)) && c.utf8(TextOf(v)))
  {
  }

  lemma TextNone(c: Codec, types: seq<Type>, s: seq<byte>, cols: seq<nat>, offs: seq<nat>, vs: seq<Value>)
    requires |cols| == |offs| && |vs| == |types| && BitmapLen(|types|) <= |s| && forall i :: 0 <= i < |cols| ==>
      cols[i] < |types|
    ensures DecodeTextUpTo(c, types, s, cols, offs, vs, 0) == Ok(vs)
  {
  }

  lemma TextNext(c: Codec, types: seq<Type>, s: seq<byte>, cols: seq<nat>, offs: seq<nat>, vs: seq<Value>, j: nat,
                 done: seq<Value>)
    requires 0 < j <= |cols| == |offs| && |vs| == |types| && BitmapLen(|types|) <= |s|
      && forall i :: 0 <= i < |cols| ==> cols[i] < |types|
    requires DecodeTextUpTo(c, types, s, cols, offs, vs, j - 1) == Ok(done)
    requires var lo, hi := offs[j - 1], if j < |offs| then offs[j] else |s|; lo <= hi <= |s|
    ensures cols[j - 1] / 8 < |s| && |done| == |vs|
    ensures var text := s[offs[j - 1]..if j < |offs| then offs[j] else |s|];
      DecodeTextUpTo(c, types, s, cols, offs, vs, j) ==
        if IsNull(s, cols[j - 1]) then Ok(done) else if c.utf8(text) then Ok(done[cols[j - 1] := TextV(text)]) else Err
  {
    InBitmap(cols[j - 1], |types|);
    hide IsNull;
  }

  lemma FillNext(types: seq<Type>, vs: seq<Value>, cols: seq<nat>, j: nat, done: seq<Value>)
    requires 0 < j <= |cols| && FilledIn(types, vs, cols, j - 1, done) && cols[j - 1] < |types|
      && types[cols[j - 1]].TextT?
    ensures FilledIn(types, vs, cols, j, done[cols[j - 1] := vs[cols[j - 1]]])
    ensures vs[cols[j - 1]].Null? ==> FilledIn(types, vs, cols, j, done)
  {
    assert cols[..j] == cols[..j - 1] + [cols[j - 1]];
  }

  lemma {:induction false} AllTextCols(types: seq<Type>, k: nat, i: nat)
    requires i < k <= |types| && types[i].TextT?
    ensures i in TextCols(types, k)
  {
    if i < k - 1 { AllTextCols(types, k - 1, i); }
  }

  /** What decoding an encoded row comes to: the text columns read at offsets kept in 16 bits. */
  lemma DecodeEncoded(c: Codec, types: seq<Type>, vs: seq<Value>, s: seq<byte>)
    requires RowOk(c, types, vs) && Encoded(types, vs, s)
    ensures var cols, start := TextCols(types, |types|), TextStart(types, vs);
      && TextPlaced(vs, cols, start, s)
      && Decode(c, types, s) ==
         DecodeTextUpTo(c, types, s, cols, Offsets(vs, cols, start, |cols|), NoText(types, vs, |types|), |cols|)
  {
    hide Decode, Marks, Body, TextBytes, OffsetBytes, FixedBytes, DecodeFixedUpTo, ReadOffsets, DecodeTextUpTo,
      TextPlaced, BitmapLen, TextStart;
    var n, cols, start := |types|, TextCols(types, |types|), TextStart(types, vs);
    FixedBack(c, types, vs, s, n);
    BodyParts(types, vs, s);
    var at := BitmapLen(n) + |FixedBytes(types, vs, n)|;
    OffsetsBack(vs, cols, start, s, at, |cols|);
    DecodeIs(c, types, s, NoText(types, vs, n), at, Offsets(vs, cols, start, |cols|));
  }

  /** Decoding the encoding of a row whose offsets fit gives back the row, whatever its nulls and column types. */
  lemma RowRoundTrip(c: Codec, types: seq<Type>, vs: seq<Value>, s: seq<byte>)
    requires RowOk(c, types, vs) && Encoded(types, vs, s) && Fit(vs, TextCols(types, |types|), TextStart(types, vs))
    ensures Decode(c, types, s) == Ok(vs)
  {
    hide Decode, Marks, Body, TextBytes, OffsetBytes, FixedBytes, DecodeTextUpTo, FilledIn, TextPlaced, BitmapLen,
      TextStart, Fit;
    var cols, start, base := TextCols(types, |types|), TextStart(types, vs), NoText(types, vs, |types|);
    DecodeEncoded(c, types, vs, s);
    BaseFilled(types, vs, cols);
    TextBack(c, types, vs, s, cols, start, base, |cols|);
    AllFilled(types, vs, DecodeTextUpTo(c, types, s, cols, Offsets(vs, cols, start, |cols|), base, |cols|).value);
  }

  /**
   * Exactly when an encoded row decodes to itself: no text column starts past the reach of its 16-bit
   * offset. For every schema whose bitmap, fixed columns and offsets do not fill 64 KiB by themselves.
   */
  lemma RowRoundTripIff(c: Codec, types: seq<Type>, vs: seq<Value>, s: seq<byte>)
    requires RowOk(c, types, vs) && Encoded(types, vs, s) && TextStart(types, vs) < 0x1_0000
    ensures Decode(c, types, s) == Ok(vs) <==> Fit(vs, TextCols(types, |types|), TextStart(types, vs))
  {
    hide Decode, Marks, Body, OffsetBytes, FixedBytes, DecodeTextUpTo, TextPlaced, BitmapLen, TextStart, Encoded;
    var cols, start, base := TextCols(types, |types|), TextStart(types, vs), NoText(types, vs, |types|);
    if Fit(vs, cols, start) {
      RowRoundTrip(c, types, vs, s);
    } else {
      DecodeEncoded(c, types, vs, s);
      var k :| 0 <= k < |cols| && start + |TextBytes(vs, cols, k)| >= 0x1_0000;
      var j := Crossing(vs, cols, start, k);
      ColsDistinct(types, |types|);
      TextCut(c, types, vs, s, cols, start, base, j, |cols|);
    }
  }

  /** The first text whose end cannot be written down. */
  lemma {:induction false} Crossing(vs: seq<Value>, cols: seq<nat>, start: nat, k: nat) returns (j: nat)
    requires k < |cols| && (forall i :: 0 <= i < |cols| ==> cols[i] < |vs|)
    requires start < 0x1_0000 <= start + |TextBytes(vs, cols, k)|
    ensures 0 < j < |cols| && start + |TextBytes(vs, cols, j - 1)| < 0x1_0000 <= start + |TextBytes(vs, cols, j)|
  {
    if start + |TextBytes(vs, cols, k - 1)| < 0x1_0000 {
      j := k;
    } else {
      j := Crossing(vs, cols, start, k - 1);
    }
  }

  ghost predicate Distinct(cols: seq<nat>) {
    forall i, j :: 0 <= i < j < |cols| ==> cols[i] != cols[j]
  }

  lemma DistinctPush(cols: seq<nat>, x: nat)
    requires Distinct(cols) && forall i :: 0 <= i < |cols| ==> cols[i] < x
    ensures Distinct(cols + [x])
  {
  }

  lemma {:induction false} ColsDistinct(types: seq<Type>, k: nat)
    requires k <= |types|
    ensures Distinct(TextCols(types, k))
  {
    if k > 0 {
      hide Distinct;
      ColsDistinct(types, k - 1);
      DistinctPush(TextCols(types, k - 1), k - 1);
    }
  }

  /** That text comes back cut short, or not at all, and nothing after it puts it right. */
  lemma {:induction false} TextCut(c: Codec, types: seq<Type>, vs: seq<Value>, s: seq<byte>, cols: seq<nat>, start: nat,
                                   base: seq<Value>, j: nat, n: nat)
    requires RowOk(c, types, vs) && Encoded(types, vs, s) && TextPlaced(vs, cols, start, s) && 0 < j < |cols|
      && j <= n <= |cols|
    requires |base| == |types| && Distinct(cols)
    requires start + |TextBytes(vs, cols, j - 1)| < 0x1_0000 <= start + |TextBytes(vs, cols, j)|
    ensures var r := DecodeTextUpTo(c, types, s, cols, Offsets(vs, cols, start, |cols|), base, n);
      r.Ok? ==> r.value[cols[j - 1]] != vs[cols[j - 1]]
  {
    hide Marks, Body, IsNull, BitmapLen, Matches, ValueOk, TextBytes, DecodeTextUpTo;
    var offs := Offsets(vs, cols, start, |cols|);
    NullAt(types, vs, s, cols[j - 1]);
    if n > j {
      TextCut(c, types, vs, s, cols, start, base, j, n - 1);
      TextAgain(c, types, s, cols, offs, base, n);
    } else {
      TextIn(vs, cols, j);
      TextAgain(c, types, s, cols, offs, base, j);
    }
  }

  /** What reading one more text column does, if it succeeds. */
  lemma TextAgain(c: Codec, types: seq<Type>, s: seq<byte>, cols: seq<nat>, offs: seq<nat>, vs: seq<Value>, j: nat)
    requires 0 < j <= |cols| == |offs| && |vs| == |types| && BitmapLen(|types|) <= |s|
      && forall i :: 0 <= i < |cols| ==> cols[i] < |types|
    ensures cols[j - 1] / 8 < |s|
    ensures var r, done :=
      DecodeTextUpTo(c, types, s, cols, offs, vs, j), DecodeTextUpTo(c, types, s, cols, offs, vs, j - 1);
      var lo, hi := offs[j - 1], if j < |offs| then offs[j] else |s|;
      r.Ok? ==>
        done.Ok? && if IsNull(s, cols[j - 1]) then r == done
        else lo <= hi <= |s| && r.value == done.value[cols[j - 1] := TextV(s[lo..hi])]
  {
    InBitmap(cols[j - 1], |types|);
    hide IsNull;
  }

  /** A text of 64 KiB in front of another column does not come back. */
  lemma LongTextLost(c: Codec, text: seq<byte>, s: seq<byte>)
    requires |text| >= 0x1_0000 && c.utf8(text) && c.utf8([]) && Encoded([TextT, TextT], [TextV(text), TextV([])], s)
    ensures Decode(c, [TextT, TextT], s) != Ok([TextV(text), TextV([])])
  {
    var types, vs := [TextT, TextT], [TextV(text), TextV([])];
    TwoTexts(types);
    var cols := TextCols(types, 2);
    assert TextBytes(vs, cols, 0) == [] && TextBytes(vs, cols, 1) == text;
    assert TextStart(types, vs) == 5 by {
      assert FixedBytes(types, vs, 0) == [] && FixedBytes(types, vs, 1) == [];
    }
    hide Decode, Encoded, TextCols, TextStart, TextBytes;
    RowRoundTripIff(c, types, vs, s);
  }

  lemma TwoTexts(types: seq<Type>)
    requires types == [TextT, TextT]
    ensures TextCols(types, 2) == [0, 1] && BitmapLen(2) == 1
  {
    assert TextCols(types, 0) == [] && TextCols(types, 1) == [0];
  }

  lemma BaseFilled(types: seq<Type>, vs: seq<Value>, cols: seq<nat>)
    requires |types| == |vs|
    ensures FilledIn(types, vs, cols, 0, NoText(types, vs, |types|))
  {
  }

  lemma AllFilled(types: seq<Type>, vs: seq<Value>, r: seq<Value>)
    requires FilledIn(types, vs, TextCols(types, |types|), |TextCols(types, |types|)|, r)
    ensures r == vs
  {
    var cols := TextCols(types, |types|);
    assert cols[..|cols|] == cols;
    forall i | 0 <= i < |types| ensures r[i] == vs[i] {
      if types[i].TextT? { AllTextCols(types, |types|, i); }
    }
  }

  lemma DecodeIs(c: Codec, types: seq<Type>, s: seq<byte>, vs: seq<Value>, at: nat, offs: seq<nat>)
    requires BitmapLen(|types|) <= |s| && DecodeFixedUpTo(types, s, |types|) == Ok((vs, at))
    requires ReadOffsets(s, at, |TextCols(types, |types|)|) == Ok(offs) && |offs| == |TextCols(types, |types|)|
      && |vs| == |types|
    ensures Decode(c, types, s)
      == DecodeTextUpTo(c, types, s, TextCols(types, |types|), offs, vs, |TextCols(types, |types|)|)
  {
    hide DecodeFixedUpTo, ReadOffsets, DecodeTextUpTo, TextCols, BitmapLen;
  }

  lemma BodyParts(types: seq<Type>, vs: seq<Value>, s: seq<byte>)
    requires Encoded(types, vs, s)
    ensures var cols, start := TextCols(types, |types|), TextStart(types, vs);
      var at := BitmapLen(|types|) + |FixedBytes(types, vs, |types|)|;
      && at <= |s| && OffsetBytes(vs, cols, start, |cols|) <= s[at..] && TextPlaced(vs, cols, start, s)
      && start + |TextBytes(vs, cols, |cols|)| == |s|
  {
    hide FixedBytes, OffsetBytes, TextBytes, TextCols, BitmapLen, Marks;
    var nb, cols, start := BitmapLen(|types|), TextCols(types, |types|), TextStart(types, vs);
    var f, o, t := FixedBytes(types, vs, |types|), OffsetBytes(vs, cols, start, |cols|), TextBytes(vs, cols, |cols|);
    ThreeParts(s[..nb], f, o, t);
    assert s == s[..nb] + s[nb..];
  }

  lemma ThreeParts(b: seq<byte>, f: seq<byte>, o: seq<byte>, t: seq<byte>)
    ensures var s := b + (f + o + t);
      s[|b| + |f|..] == o + t && s[|b| + |f| + |o|..] == t && |s| == |b| + |f| + |o| + |t|
  {
  }

  // ----- The decoder's loops -----

  lemma {:induction false} FixedStops(types: seq<Type>, s: seq<byte>, k: nat, n: nat)
    requires k <= n <= |types| && BitmapLen(|types|) <= |s| && DecodeFixedUpTo(types, s, k).Err?
    ensures DecodeFixedUpTo(types, s, n).Err?
  {
    if n > k { FixedStops(types, s, k, n - 1); }
  }

  lemma {:induction false} OffsetsStop(s: seq<byte>, at: nat, k: nat, n: nat)
    requires k <= n && ReadOffsets(s, at, k).Err?
    ensures ReadOffsets(s, at, n).Err?
  {
    if n > k { OffsetsStop(s, at, k, n - 1); }
  }

  lemma {:induction false} TextStops(c: Codec, types: seq<Type>, s: seq<byte>, cols: seq<nat>, offs: seq<nat>,
                                     vs: seq<Value>, k: nat, n: nat)
    requires k <= n <= |cols| == |offs| && |vs| == |types| && BitmapLen(|types|) <= |s|
      && forall i :: 0 <= i < |cols| ==> cols[i] < |types|
    requires DecodeTextUpTo(c, types, s, cols, offs, vs, k).Err?
    ensures DecodeTextUpTo(c, types, s, cols, offs, vs, n).Err?
  {
    if n > k { TextStops(c, types, s, cols, offs, vs, k, n - 1); }
  }

  method DecodeFixedPart(types: seq<Type>, s: seq<byte>) returns (ok: bool, vs: seq<Value>, at: nat)
    requires BitmapLen(|types|) <= |s|
    ensures DecodeFixedUpTo(types, s, |types|) == if ok then Ok((vs, at)) else Err
    ensures ok ==> |vs| == |types|
  {
    vs, at := [], BitmapLen(|types|);
    DecodeNone(types, s);
    hide DecodeFixedUpTo, DecodeFixed, IsNull, BitmapLen;
    for i := 0 to |types|
      invariant DecodeFixedUpTo(types, s, i) == Ok((vs, at)) && |vs| == i
    {
      DecodeNext(types, s, i + 1, vs, at);
      var ty := types[i];
      if IsNull(s, i) || ty.TextT? {
        vs := vs + [Null];
      } else {
        if at + Width(ty) > |s| {
          FixedStops(types, s, i + 1, |types|);
          return false, vs, at;
        }
        vs, at := vs + [DecodeFixed(ty, s[at..at + Width(ty)])], at + Width(ty);
      }
    }
    ok := true;
  }

  method DecodeOffsets(s: seq<byte>, at: nat, m: nat) returns (ok: bool, offs: seq<nat>)
    ensures ReadOffsets(s, at, m) == if ok then Ok(offs) else Err
    ensures ok ==> |offs| == m
  {
    offs := [];
    for j := 0 to m
      invariant ReadOffsets(s, at, j) == Ok(offs) && |offs| == j
    {
      var p := at + 2 * j;
      if p + 2 > |s| {
        OffsetsStop(s, at, j + 1, m);
        return false, offs;
      }
      offs := offs + [FromLe(s[p..p + 2])];
    }
    ok := true;
  }

  method DecodeText(c: Codec, types: seq<Type>, s: seq<byte>, cols: seq<nat>, offs: seq<nat>, vs: seq<Value>)
    returns (r: Result<seq<Value>>)
    requires |cols| == |offs| && |vs| == |types| && BitmapLen(|types|) <= |s| && forall i :: 0 <= i < |cols| ==>
      cols[i] < |types|
    ensures r == DecodeTextUpTo(c, types, s, cols, offs, vs, |cols|)
  {
    var done := vs;
    for j := 0 to |cols|
      invariant DecodeTextUpTo(c, types, s, cols, offs, vs, j) == Ok(done) && |done| == |vs|
    {
      var i := cols[j];
      InBitmap(i, |types|);
      if !IsNull(s, i) {
        var lo, hi := offs[j], if j + 1 < |offs| then offs[j + 1] else |s|;
        if lo > hi || hi > |s| || !c.utf8(s[lo..hi]) {
          TextStops(c, types, s, cols, offs, vs, j + 1, |cols|);
          return Err;
        }
        done := done[i := TextV(s[lo..hi])];
      }
    }
    r := Ok(done);
  }

  method DecodeRow(c: Codec, types: seq<Type>, s: seq<byte>) returns (r: Result<seq<Value>>)
    ensures r == Decode(c, types, s)
  {
    hide DecodeFixedUpTo, ReadOffsets, DecodeTextUpTo, BitmapLen;
    if |s| < BitmapLen(|types|) {
      return Err;
    }
    var ok, vs, at := DecodeFixedPart(types, s);
    if !ok {
      return Err;
    }
    var cols := TextCols(types, |types|);
    var ok', offs := DecodeOffsets(s, at, |cols|);
    if !ok' {
      return Err;
    }
    r := DecodeText(c, types, s, cols, offs, vs);
  }
}
