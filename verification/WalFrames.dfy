/** WAL frames as bytes: what a record looks like in a segment, and how a reader takes it or stops. */
module WalFrames {
  import opened Bytes
  import opened RecordHeader

  const FRAME_HEADER: nat := 32
  const CRC_SIZE: nat := 4
  const SEGMENT_HEADER: nat := 64

  /** A log record: its header fields, type byte and encoded body. */
  datatype Entry = Entry(lsn: nat, txn: nat, prev: nat, kind: byte, body: seq<byte>)

  /** The checksum is a parameter: any function of the bytes, kept to 32 bits. */
  type Crc = seq<byte> -> nat

  function Sum(crc: Crc, s: seq<byte>): nat { crc(s) % TWO32 }

  predicate EntryOk(e: Entry) {
    0 < e.lsn < TWO64 && |e.body| < TWO32 && e.txn < TWO64 && e.prev < TWO64
  }

  function Total(e: Entry): nat { FRAME_HEADER + |e.body| + CRC_SIZE }

  function Head(e: Entry): (s: seq<byte>)
    ensures |s| == FRAME_HEADER + |e.body|
  {
    ToLe(e.lsn, 8) + ToLe(|e.body|, 4) + [e.kind] + [0, 0, 0] + ToLe(e.txn, 8) + ToLe(e.prev, 8) + e.body
  }

  /** `assemble_frame`. */
  function FrameBytes(crc: Crc, e: Entry): (s: seq<byte>)
    ensures |s| == Total(e)
  {
    Head(e) + ToLe(Sum(crc, Head(e)), 4)
  }

  datatype Parsed = Empty | Torn | Rec(entry: Entry)

  /** What a reader finds at an offset: nothing more in this segment, a torn record, or a record. */
  function ParseAt(crc: Crc, bytes: seq<byte>, off: nat): Parsed {
    if off + FRAME_HEADER > |bytes| || FromLe(bytes[off..off + 8]) == 0 then Empty
    else
      var n := FromLe(bytes[off + 8..off + 12]);
      if off + FRAME_HEADER + n + CRC_SIZE > |bytes| then Torn
      else
        var end := off + FRAME_HEADER + n;
        if FromLe(bytes[end..end + 4]) != Sum(crc, bytes[off..end]) then Torn
        else Rec(Entry(FromLe(bytes[off..off + 8]), FromLe(bytes[off + 16..off + 24]),
          FromLe(bytes[off + 24..off + 32]),
                       bytes[off + 12], bytes[off + FRAME_HEADER..end]))
  }

  lemma HeadFields(e: Entry)
    ensures var h := Head(e);
      && h[0..8] == ToLe(e.lsn, 8) && h[8..12] == ToLe(|e.body|, 4) && h[12] == e.kind
      && h[16..24] == ToLe(e.txn, 8) && h[24..32] == ToLe(e.prev, 8) && h[32..] == e.body
  {
    hide ToLe;
  }

  lemma Sub(bytes: seq<byte>, off: nat, f: seq<byte>, a: nat, b: nat)
    requires off + |f| <= |bytes| && bytes[off..off + |f|] == f && a <= b <= |f|
    ensures bytes[off + a..off + b] == f[a..b]
  {
    forall i | 0 <= i < b - a ensures bytes[off + a..off + b][i] == f[a..b][i] {
      assert bytes[off..off + |f|][a + i] == f[a + i];
    }
  }

  lemma Left(h: seq<byte>, c: seq<byte>, a: nat, b: nat)
    requires a <= b <= |h|
    ensures (h + c)[a..b] == h[a..b]
  {
  }

  /** The fields of a frame decode to those of its record. */
  lemma FrameFields(crc: Crc, e: Entry)
    requires EntryOk(e)
    ensures var f, n := FrameBytes(crc, e), FRAME_HEADER + |e.body|;
      && FromLe(f[0..8]) == e.lsn && FromLe(f[8..12]) == |e.body| && f[12] == e.kind
      && FromLe(f[16..24]) == e.txn && FromLe(f[24..32]) == e.prev && f[32..n] == e.body
      && FromLe(f[n..n + 4]) == Sum(crc, f[0..n])
  {
    var f, h, n := FrameBytes(crc, e), Head(e), FRAME_HEADER + |e.body|;
    var c := ToLe(Sum(crc, h), 4);
    assert f == h + c;
    HeadDecodes(e);
    Le4Fits(Sum(crc, h));
    hide *;
    assert f[n..n + 4] == c && h[0..n] == h && h[32..n] == h[32..];
    Left(h, c, 0, n);
    Left(h, c, 0, 8);
    Left(h, c, 8, 12);
    Left(h, c, 16, 24);
    Left(h, c, 24, 32);
    Left(h, c, 32, n);
    assert f[12] == h[12];
  }

  lemma HeadDecodes(e: Entry)
    requires EntryOk(e)
    ensures var h := Head(e);
      && FromLe(h[0..8]) == e.lsn && FromLe(h[8..12]) == |e.body| && h[12] == e.kind
      && FromLe(h[16..24]) == e.txn && FromLe(h[24..32]) == e.prev && h[32..] == e.body
  {
    HeadFields(e);
    Le8Fits(e.lsn);
    Le4Fits(|e.body|);
    Le8Fits(e.txn);
    Le8Fits(e.prev);
    hide ToLe, FromLe, Head;
  }

  /** A written frame reads back as the record it was made from. */
  lemma ParseFrame(crc: Crc, bytes: seq<byte>, off: nat, e: Entry)
    requires EntryOk(e) && off + Total(e) <= |bytes| && bytes[off..off + Total(e)] == FrameBytes(crc, e)
    ensures ParseAt(crc, bytes, off) == Rec(e)
  {
    FrameAlone(crc, e);
    hide ParseAt, FrameBytes;
    ParseShift(crc, bytes, off, FrameBytes(crc, e));
  }

  lemma FrameAlone(crc: Crc, e: Entry)
    requires EntryOk(e)
    ensures |FrameBytes(crc, e)| == Total(e) && ParseAt(crc, FrameBytes(crc, e), 0) == Rec(e)
  {
    FrameFields(crc, e);
    hide ParseAt, FromLe, ToLe, Sum, Head;
    FrameParses(crc, FrameBytes(crc, e), e);
  }

  lemma FrameParses(crc: Crc, f: seq<byte>, e: Entry)
    requires |f| == Total(e) && e.lsn > 0 && FromLe(f[0..8]) == e.lsn && FromLe(f[8..12]) == |e.body| && f[12] == e.kind
    requires FromLe(f[16..24]) == e.txn && FromLe(f[24..32]) == e.prev
    requires var n := FRAME_HEADER + |e.body|; f[32..n] == e.body && FromLe(f[n..n + 4]) == Sum(crc, f[0..n])
    ensures ParseAt(crc, f, 0) == Rec(e)
  {
    hide FromLe, Sum;
  }

  /** A frame reads the same wherever it stands. */
  lemma ParseShift(crc: Crc, bytes: seq<byte>, off: nat, f: seq<byte>)
    requires ParseAt(crc, f, 0).Rec? && |f| == Total(ParseAt(crc, f, 0).entry)
    requires off + |f| <= |bytes| && bytes[off..off + |f|] == f
    ensures ParseAt(crc, bytes, off) == ParseAt(crc, f, 0)
  {
    hide FromLe, Sum;
    Slices(bytes, off, f, |f| - CRC_SIZE);
  }

  lemma Slices(bytes: seq<byte>, off: nat, f: seq<byte>, n: nat)
    requires FRAME_HEADER <= n && |f| == n + CRC_SIZE && off + |f| <= |bytes| && bytes[off..off + |f|] == f
    ensures bytes[off..off + 8] == f[0..8] && bytes[off + 8..off + 12] == f[8..12] && bytes[off + 12] == f[12]
    ensures bytes[off + 16..off + 24] == f[16..24] && bytes[off + 24..off + 32] == f[24..32]
    ensures bytes[off + 32..off + n] == f[32..n] && bytes[off + n..off + n + 4] == f[n..n + 4]
      && bytes[off..off + n] == f[0..n]
  {
    Sub(bytes, off, f, 0, 8);
    Sub(bytes, off, f, 8, 12);
    Sub(bytes, off, f, 16, 24);
    Sub(bytes, off, f, 24, 32);
    Sub(bytes, off, f, 32, n);
    Sub(bytes, off, f, n, n + 4);
    Sub(bytes, off, f, 0, n);
    assert bytes[off + 12] == bytes[off..off + |f|][12];
  }

  /** A record is read from its own bytes alone. */
  lemma ParseSame(crc: Crc, bytes: seq<byte>, bytes': seq<byte>, off: nat, k: nat)
    requires k <= |bytes| == |bytes'| && bytes'[..k] == bytes[..k]
    requires ParseAt(crc, bytes, off).Rec? && off + Total(ParseAt(crc, bytes, off).entry) <= k
    ensures ParseAt(crc, bytes', off) == ParseAt(crc, bytes, off)
  {
    var e := ParseAt(crc, bytes, off).entry;
    var end := off + FRAME_HEADER + |e.body|;
    hide FromLe, Sum;
    Prefix(bytes, bytes', k, off, off + 8);
    Prefix(bytes, bytes', k, off + 8, off + 12);
    Prefix(bytes, bytes', k, off + 16, off + 24);
    Prefix(bytes, bytes', k, off + 24, off + 32);
    Prefix(bytes, bytes', k, off + 32, end);
    Prefix(bytes, bytes', k, end, end + 4);
    Prefix(bytes, bytes', k, off, end);
    assert bytes'[off + 12] == bytes'[..k][off + 12];
  }

  lemma Prefix(bytes: seq<byte>, bytes': seq<byte>, k: nat, a: nat, b: nat)
    requires k <= |bytes| == |bytes'| && bytes'[..k] == bytes[..k] && a <= b <= k
    ensures bytes'[a..b] == bytes[a..b]
  {
    assert bytes[a..b] == bytes[..k][a..b] && bytes'[a..b] == bytes'[..k][a..b];
  }

  lemma SameSlice(bytes: seq<byte>, bytes': seq<byte>, off: nat, a: nat, b: nat)
    requires |bytes| == |bytes'| && off <= a <= b <= |bytes| && bytes'[off..] == bytes[off..]
    ensures bytes'[a..b] == bytes[a..b]
  {
    forall i | a <= i < b ensures bytes'[i] == bytes[i] {
      assert bytes'[off..][i - off] == bytes[off..][i - off];
    }
  }

  /** A read looks only at the bytes from its offset on. */
  lemma ParseTail(crc: Crc, bytes: seq<byte>, bytes': seq<byte>, off: nat)
    requires |bytes| == |bytes'| && off <= |bytes| && bytes'[off..] == bytes[off..]
    ensures ParseAt(crc, bytes', off) == ParseAt(crc, bytes, off)
  {
    hide FromLe, Sum;
    if off + FRAME_HEADER <= |bytes| {
      SameSlice(bytes, bytes', off, off, off + 8);
      SameSlice(bytes, bytes', off, off + 8, off + 12);
      SameSlice(bytes, bytes', off, off + 16, off + 24);
      SameSlice(bytes, bytes', off, off + 24, off + 32);
      assert bytes'[off + 12] == bytes'[off..][12] && bytes[off + 12] == bytes[off..][12];
      var end := off + FRAME_HEADER + FromLe(bytes[off + 8..off + 12]);
      if end + 4 <= |bytes| {
        SameSlice(bytes, bytes', off, off + 32, end);
        SameSlice(bytes, bytes', off, end, end + 4);
        SameSlice(bytes, bytes', off, off, end);
      }
    }
  }

  lemma RecFits(crc: Crc, bytes: seq<byte>, off: nat)
    requires ParseAt(crc, bytes, off).Rec?
    ensures off + Total(ParseAt(crc, bytes, off).entry) <= |bytes| && ParseAt(crc, bytes, off).entry.lsn > 0
  {
  }

  // ----- LSNs -----

  /** `Lsn::from_parts`. */
  function LsnOf(seg: nat, off: nat): nat { seg * TWO32 + off }

  /** An LSN names its segment and offset, orders by segment and then offset, and is never zero. */
  lemma LsnParts(seg: nat, off: nat, seg': nat, off': nat)
    requires off < TWO32 && off' < TWO32
    ensures LsnOf(seg, off) / TWO32 == seg && LsnOf(seg, off) % TWO32 == off
    ensures LsnOf(seg, off) < LsnOf(seg', off') <==> seg < seg' || (seg == seg' && off < off')
    ensures off > 0 ==> LsnOf(seg, off) > 0
  {
  }
}
