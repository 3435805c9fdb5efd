/** Record ids and the 24-byte MVCC header that prefixes every record. */
module RecordHeader {
  import opened Bytes
  import opened Visibility
  import opened Options

  datatype RecordId = RecordId(page: nat, slot: nat)

  const HEADER_SIZE: nat := 24
  const NIL6: seq<byte> := [255, 255, 255, 255, 255, 255]
  const TWO32: nat := 0x1_0000_0000
  const TWO64: nat := 0x1_0000_0000_0000_0000

  /** Ids fit the widths the source stores them in: 64-bit pages and 16-bit slots. */
  predicate RidOk(r: RecordId) { r.page < TWO64 && r.slot < 0x1_0000 }

  /** The 6-byte `prev_version` form; it keeps only the low 32 bits of the page. */
  function Encode6(r: Option<RecordId>): (s: seq<byte>)
    ensures |s| == 6
  {
    match r
    case None => NIL6
    case Some(rid) => ToLe(rid.page, 4) + ToLe(rid.slot, 2)
  }

  function Decode6(s: seq<byte>): Option<RecordId>
    requires |s| == 6
  {
    if s == NIL6 then None else Some(RecordId(FromLe(s[..4]), FromLe(s[4..])))
  }

  lemma Pow4()
    ensures Pow256(4) == TWO32 && Pow256(2) == 0x1_0000 && Pow256(8) == TWO64
  {
    assert Pow256(0) == 1 && Pow256(1) == 256 && Pow256(2) == 65536 && Pow256(3) == 0x100_0000;
    assert Pow256(4) == TWO32 && Pow256(5) == 256 * TWO32 && Pow256(6) == 65536 * TWO32
      && Pow256(7) == 0x100_0000 * TWO32;
  }

  /**
   * Exactly when a predecessor survives its 6-byte form: its page is below 2^32, and it is not the
   * one id whose encoding is the NIL sentinel.
   */
  lemma Encode6RoundTripIff(rid: RecordId)
    requires RidOk(rid)
    ensures Decode6(Encode6(Some(rid))) == Some(rid)
       <==> rid.page < TWO32 && rid != RecordId(TWO32 - 1, 0xFFFF)
  {
    var s := Encode6(Some(rid));
    Pow4();
    LeRoundTrip(rid.page, 4);
    LeRoundTrip(rid.slot, 2);
    assert s[..4] == ToLe(rid.page, 4) && s[4..] == ToLe(rid.slot, 2);
    NilBytes(s);
  }

  /** The sentinel is the all-ones page with the all-ones slot. */
  lemma NilBytes(s: seq<byte>)
    requires |s| == 6
    ensures s == NIL6 <==> FromLe(s[..4]) == TWO32 - 1 && FromLe(s[4..]) == 0xFFFF
  {
    Le4(s[..4]);
    Le2(s[4..]);
    assert s == s[..4] + s[4..];
  }

  lemma Le2(s: seq<byte>)
    requires |s| == 2
    ensures FromLe(s) == (s[0] as int) + 256 * (s[1] as int)
  {
    assert FromLe(s[1..]) == (s[1] as int) + 256 * FromLe(s[1..][1..]);
    assert FromLe(s[1..][1..]) == 0;
  }

  lemma Le4(s: seq<byte>)
    requires |s| == 4
    ensures FromLe(s) == (s[0] as int) + 256 * (s[1] as int) + 65536 * (s[2] as int) + 16777216 * (s[3] as int)
  {
    Le2(s[2..]);
    assert s[1..][1..] == s[2..];
    assert FromLe(s[1..]) == (s[1] as int) + 256 * FromLe(s[2..]);
  }

  /** Values that fit come back unchanged. */
  lemma LeFits(v: nat, n: nat)
    requires v < Pow256(n)
    ensures FromLe(ToLe(v, n)) == v
  {
    LeRoundTrip(v, n);
  }

  lemma Le8Fits(v: nat)
    ensures v < TWO64 ==> FromLe(ToLe(v, 8)) == v
  {
    Pow4();
    hide Pow256;
    LeRoundTrip(v, 8);
  }

  lemma Le4Fits(v: nat)
    ensures v < TWO32 ==> FromLe(ToLe(v, 4)) == v
  {
    Pow4();
    hide Pow256;
    LeRoundTrip(v, 4);
  }

  // ----- The header -----

  datatype Header = Header(xmin: TxnId, xmax: TxnId, prev: Option<RecordId>, flags: nat)

  predicate HeaderOk(h: Header) {
    h.xmin < TWO64 && h.xmax < TWO64 && h.flags < 0x1_0000 && (h.prev.Some? ==> RidOk(h.prev.value))
  }

  /** `FLAG_HAS_PREV` is bit 0 and is derived from `prev`. */
  function StoredFlags(h: Header): nat {
    h.flags - h.flags % 2 + if h.prev.Some? then 1 else 0
  }

  function EncodeHeader(h: Header): (s: seq<byte>)
    ensures |s| == HEADER_SIZE
  {
    ToLe(h.xmin, 8) + ToLe(h.xmax, 8) + Encode6(h.prev) + ToLe(StoredFlags(h), 2)
  }

  function DecodeHeader(s: seq<byte>): Option<Header> {
    if |s| < HEADER_SIZE then None
    else Some(Header(FromLe(s[0..8]), FromLe(s[8..16]), Decode6(s[16..22]), FromLe(s[22..24])))
  }

  lemma Fields(a: seq<byte>, b: seq<byte>, c: seq<byte>, d: seq<byte>, rest: seq<byte>)
    requires |a| == 8 && |b| == 8 && |c| == 6 && |d| == 2
    ensures var s := a + b + c + d + rest;
      s[0..8] == a && s[8..16] == b && s[16..22] == c && s[22..24] == d && s[24..] == rest
  {
  }

  /**
   * Every field comes back, whatever payload follows the header, but for the lowest flag bit: that one says whether
   * there is a previous version, and the other bits are those given.
   */
  lemma HeaderRoundTrip(h: Header, payload: seq<byte>)
    requires HeaderOk(h)
    ensures DecodeHeader(EncodeHeader(h) + payload)
         == Some(Header(h.xmin, h.xmax, Decode6(Encode6(h.prev)), StoredFlags(h)))
    ensures (EncodeHeader(h) + payload)[HEADER_SIZE..] == payload
    ensures var flags := DecodeHeader(EncodeHeader(h) + payload).value.flags;
      (flags % 2 == 1 <==> h.prev.Some?) && flags / 2 == h.flags / 2
  {
    assert (StoredFlags(h) % 2 == 1 <==> h.prev.Some?) && StoredFlags(h) / 2 == h.flags / 2;
    Pow4();
    LeFits(h.xmin, 8);
    LeFits(h.xmax, 8);
    LeFits(StoredFlags(h), 2);
    hide Pow256, ToLe, FromLe, Encode6, Decode6, StoredFlags;
    Fields(ToLe(h.xmin, 8), ToLe(h.xmax, 8), Encode6(h.prev), ToLe(StoredFlags(h), 2), payload);
  }

  /** Overwriting bytes 8..16 of a record replaces its xmax and nothing else. */
  function StampBytes(s: seq<byte>, t: TxnId): (r: seq<byte>)
    requires |s| >= 16
    ensures |r| == |s|
  {
    Blit(s, 8, ToLe(t, 8))
  }

  lemma StampIsXmax(s: seq<byte>, t: TxnId)
    requires |s| >= HEADER_SIZE && t < TWO64
    ensures DecodeHeader(StampBytes(s, t)) == Some(DecodeHeader(s).value.(xmax := t))
    ensures StampBytes(s, t)[HEADER_SIZE..] == s[HEADER_SIZE..]
  {
    Le8Fits(t);
    var d := ToLe(t, 8);
    hide ToLe, FromLe, Blit, Decode6;
    BlitSlice(s, 8, d, 0, 8);
    BlitSlice(s, 8, d, 16, 22);
    BlitSlice(s, 8, d, 22, 24);
    BlitSlice(s, 8, d, HEADER_SIZE, |s|);
    assert s[HEADER_SIZE..] == s[HEADER_SIZE..|s|]
      && StampBytes(s, t)[HEADER_SIZE..] == StampBytes(s, t)[HEADER_SIZE..|s|];
  }
}
