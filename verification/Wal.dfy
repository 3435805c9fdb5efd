/** The write-ahead log: segments, rotation, replay, group flush, and reopening after a torn tail. */
module Wal {
  import opened Bytes
  import opened Options
  import opened RecordHeader
  import opened Seqs
  import opened WalFrames

  type Segments = map<nat, seq<byte>>

  // ----- Records laid out in a segment -----

  function Size(es: seq<Entry>): nat {
    if es == [] then 0 else Size(es[..|es| - 1]) + Total(es[|es| - 1])
  }

  /** The records `es` stand one after another from `off` in segment `seg`, each under the LSN of its place. */
  ghost predicate FramesAt(crc: Crc, bytes: seq<byte>, seg: nat, off: nat, es: seq<Entry>)
    decreases |es|
  {
    es == [] ||
    var n := |es| - 1;
    FramesAt(crc, bytes, seg, off, es[..n]) && FrameAt(crc, bytes, seg, off + Size(es[..n]), es[n])
  }

  ghost predicate FrameAt(crc: Crc, bytes: seq<byte>, seg: nat, off: nat, e: Entry) {
    ParseAt(crc, bytes, off) == Rec(e) && e.lsn == LsnOf(seg, off)
  }

  lemma SizeLast(es: seq<Entry>, e: Entry)
    ensures Size(es + [e]) == Size(es) + Total(e)
  {
    assert (es + [e])[..|es|] == es;
  }

  lemma FramesLast(crc: Crc, bytes: seq<byte>, seg: nat, off: nat, es: seq<Entry>, e: Entry)
    ensures FramesAt(crc, bytes, seg, off, es + [e]) <==>
      FramesAt(crc, bytes, seg, off, es) && FrameAt(crc, bytes, seg, off + Size(es), e)
  {
    hide FrameAt, ParseAt, Size;
    assert (es + [e])[..|es|] == es;
  }

  /** Bytes written past the end of the records do not disturb them. */
  lemma {:induction false} FramesKept(crc: Crc, bytes: seq<byte>, bytes': seq<byte>, seg: nat, off: nat, es: seq<Entry>,
                                      k: nat)
    requires FramesAt(crc, bytes, seg, off, es)
    requires off + Size(es) <= k <= |bytes| == |bytes'| && bytes'[..k] == bytes[..k]
    ensures FramesAt(crc, bytes', seg, off, es)
  {
    hide ParseAt;
    if es != [] {
      var n := |es| - 1;
      FramesKept(crc, bytes, bytes', seg, off, es[..n], k);
      ParseSame(crc, bytes, bytes', off + Size(es[..n]), k);
    }
  }

  // ----- Replay -----

  ghost function Later(segs: Segments, seg: nat): set<nat> { set s | s in segs && s >= seg }

  /** What `Replay` yields from an offset of a segment on. */
  ghost function ReplayFrom(crc: Crc, segs: Segments, seg: nat, off: nat): seq<Entry>
    decreases Later(segs, seg), if seg in segs && off <= |segs[seg]| then |segs[seg]| - off else 0
  {
    if seg !in segs then []
    else
      match ParseAt(crc, segs[seg], off)
      case Empty => NextIsLess(segs, seg); ReplayFrom(crc, segs, seg + 1, SEGMENT_HEADER)
      case Torn => []
      case Rec(e) => RecFits(crc, segs[seg], off); [e] + ReplayFrom(crc, segs, seg, off + Total(e))
  }

  lemma NextIsLess(segs: Segments, seg: nat)
    requires seg in segs
    ensures Later(segs, seg + 1) < Later(segs, seg)
  {
    assert seg in Later(segs, seg) && seg !in Later(segs, seg + 1);
  }

  /** The records of a segment come first, then whatever follows their end. */
  lemma {:induction false} ReplayFrames(crc: Crc, segs: Segments, seg: nat, off: nat, es: seq<Entry>)
    requires seg in segs && FramesAt(crc, segs[seg], seg, off, es)
    ensures ReplayFrom(crc, segs, seg, off) == es + ReplayFrom(crc, segs, seg, off + Size(es))
  {
    hide ParseAt;
    if es != [] {
      var n := |es| - 1;
      ReplayFrames(crc, segs, seg, off, es[..n]);
      ReplayRec(crc, segs, seg, off + Size(es[..n]), es[n]);
      hide ReplayFrom;
      assert Size(es) == Size(es[..n]) + Total(es[n]);
      SplitLast([], es);
      SeqAssoc(es[..n], [es[n]], ReplayFrom(crc, segs, seg, off + Size(es)));
      hide Size, FramesAt;
    }
  }

  lemma ReplayRec(crc: Crc, segs: Segments, seg: nat, off: nat, e: Entry)
    requires seg in segs && ParseAt(crc, segs[seg], off) == Rec(e)
    ensures ReplayFrom(crc, segs, seg, off) == [e] + ReplayFrom(crc, segs, seg, off + Total(e))
  {
    hide ParseAt;
  }

  lemma ReplayNone(crc: Crc, segs: Segments, seg: nat, off: nat)
    requires seg !in segs
    ensures ReplayFrom(crc, segs, seg, off) == []
  {
  }

  lemma ReplayEnd(crc: Crc, segs: Segments, seg: nat, off: nat)
    requires seg in segs && !ParseAt(crc, segs[seg], off).Rec?
    ensures ReplayFrom(crc, segs, seg, off) ==
      if ParseAt(crc, segs[seg], off).Empty? then ReplayFrom(crc, segs, seg + 1, SEGMENT_HEADER) else []
  {
    hide ParseAt;
  }

  /** The segments hold the records `parts`, one list per segment, the last one being written at `end`. */
  ghost predicate Laid(crc: Crc, segs: Segments, size: nat, parts: seq<seq<Entry>>, end: nat) {
    && parts != [] && (forall s: nat :: s in segs <==> s < |parts|)
    && (forall s :: s in segs ==> |segs[s]| == size && PartAt(crc, segs, parts, s))
    && end == SEGMENT_HEADER + Size(parts[|parts| - 1])
    && (forall s :: 0 <= s < |parts| ==> SEGMENT_HEADER + Size(parts[s]) <= size)
  }

  ghost predicate PartAt(crc: Crc, segs: Segments, parts: seq<seq<Entry>>, s: nat)
    requires s in segs && s < |parts|
  {
    FramesAt(crc, segs[s], s, SEGMENT_HEADER, parts[s])
  }

  function Flat(parts: seq<seq<Entry>>): seq<Entry> {
    if parts == [] then [] else Flat(parts[..|parts| - 1]) + parts[|parts| - 1]
  }

  /** Whether replay is done with a segment at this offset: no room for a header, or a zero LSN. */
  predicate CleanEnd(crc: Crc, bytes: seq<byte>, off: nat) {
    ParseAt(crc, bytes, off).Empty?
  }

  lemma FlatNone(parts: seq<seq<Entry>>)
    requires parts == []
    ensures Flat(parts) == []
  {
  }

  lemma {:induction false} FlatHead(parts: seq<seq<Entry>>)
    requires parts != []
    ensures Flat(parts) == parts[0] + Flat(parts[1..])
  {
    var n := |parts| - 1;
    if n > 0 {
      FlatHead(parts[..n]);
      assert parts[..n][1..] == parts[1..][..n - 1] && parts[1..][n - 1] == parts[n];
    } else {
      assert parts[..n] == [] && parts[1..] == [];
    }
  }

  // ----- Appending -----

  function Write(segs: Segments, seg: nat, off: nat, data: seq<byte>): Segments
    requires seg in segs && off + |data| <= |segs[seg]|
  {
    segs[seg := Blit(segs[seg], off, data)]
  }

  function Plus(parts: seq<seq<Entry>>, e: Entry): seq<seq<Entry>>
    requires parts != []
  {
    parts[|parts| - 1 := parts[|parts| - 1] + [e]]
  }

  lemma FlatPlus(parts: seq<seq<Entry>>, e: Entry)
    requires parts != []
    ensures Flat(Plus(parts, e)) == Flat(parts) + [e]
  {
    assert Plus(parts, e)[..|parts| - 1] == parts[..|parts| - 1];
  }

  /** Writing a frame at the end of the active segment adds its record to the log. */
  lemma LaidAppend(crc: Crc, segs: Segments, size: nat, parts: seq<seq<Entry>>, end: nat, e: Entry)
    requires Laid(crc, segs, size, parts, end) && EntryOk(e) && end + Total(e) <= size
    requires e.lsn == LsnOf(|parts| - 1, end)
    ensures |parts| - 1 in segs && |segs[|parts| - 1]| == size
    ensures Laid(crc, Write(segs, |parts| - 1, end, FrameBytes(crc, e)), size, Plus(parts, e), end + Total(e))
  {
    hide ParseAt, FrameBytes, Size, FramesAt;
    var a := |parts| - 1;
    assert PartAt(crc, segs, parts, a);
    var bytes, frame := segs[a], FrameBytes(crc, e);
    var bytes' := Blit(bytes, end, frame);
    assert bytes'[end..end + Total(e)] == frame && bytes'[..end] == bytes[..end];
    ParseFrame(crc, bytes', end, e);
    hide Blit;
    FramesKept(crc, bytes, bytes', a, SEGMENT_HEADER, parts[a], end);
    FramesLast(crc, bytes', a, SEGMENT_HEADER, parts[a], e);
    SizeLast(parts[a], e);
    var segs' := segs[a := bytes'];
    forall s | s in segs' ensures PartAt(crc, segs', Plus(parts, e), s) {
      if s != a { assert PartAt(crc, segs, parts, s); }
    }
  }

  lemma NoFrames(crc: Crc, bytes: seq<byte>, seg: nat, off: nat)
    ensures FramesAt(crc, bytes, seg, off, []) && Size([]) == 0
  {
  }

  lemma FlatLast(parts: seq<seq<Entry>>, es: seq<Entry>)
    ensures Flat(parts + [es]) == Flat(parts) + es
  {
    assert (parts + [es])[..|parts|] == parts;
  }

  lemma FlatEmpty(parts: seq<seq<Entry>>)
    ensures Flat(parts + [[]]) == Flat(parts)
  {
    FlatLast(parts, []);
  }

  /** Rotation adds an empty segment. */
  lemma LaidRotate(crc: Crc, segs: Segments, size: nat, parts: seq<seq<Entry>>, end: nat, fresh': seq<byte>)
    requires Laid(crc, segs, size, parts, end) && |fresh'| == size >= SEGMENT_HEADER
    ensures Laid(crc, segs[|parts| := fresh'], size, parts + [[]], SEGMENT_HEADER) && Flat(parts + [[]]) == Flat(parts)
  {
    hide FramesAt, Size, Flat, ParseAt;
    var none: seq<Entry> := [];
    var segs', parts' := segs[|parts| := fresh'], parts + [none];
    NoFrames(crc, fresh', |parts|, SEGMENT_HEADER);
    FlatLast(parts, none);
    forall s | s in segs' ensures |segs'[s]| == size && PartAt(crc, segs', parts', s) {
      if s < |parts| { assert PartAt(crc, segs, parts, s); }
    }
    forall s | 0 <= s < |parts'| ensures SEGMENT_HEADER + Size(parts'[s]) <= size {
      if s < |parts| { assert SEGMENT_HEADER + Size(parts[s]) <= size; }
    }
  }

  // ----- When an append is replayed -----

  /** Everything the log holds is what replay from the start returns. */
  ghost predicate Replays(crc: Crc, segs: Segments, parts: seq<seq<Entry>>) {
    ReplayFrom(crc, segs, 0, SEGMENT_HEADER) == Flat(parts)
  }

  /** All closed segments end cleanly, and nothing readable follows the last record. */
  ghost predicate Sound(crc: Crc, segs: Segments, parts: seq<seq<Entry>>, end: nat) {
    && parts != [] && (forall s :: 0 <= s < |parts| ==> s in segs)
    && (forall s :: 0 <= s < |parts| - 1 ==> CleanEnd(crc, segs[s], SEGMENT_HEADER + Size(parts[s])))
    && !ParseAt(crc, segs[|parts| - 1], end).Rec?
  }

  lemma SoundReplays(crc: Crc, segs: Segments, size: nat, parts: seq<seq<Entry>>, end: nat)
    requires Laid(crc, segs, size, parts, end) && Sound(crc, segs, parts, end)
    ensures Replays(crc, segs, parts)
  {
    hide ParseAt, FramesAt, Size, Flat, ReplayFrom;
    LaidKeys(crc, segs, size, parts, end);
    ReplayThrough(crc, segs, size, parts, end, 0);
    TailOfLast(crc, segs, |parts| - 1, end);
    assert parts[0..] == parts;
  }

  /** Replay from the LSN of a record of the log: that record and all after it. */
  lemma ReplayFromRecord(crc: Crc, segs: Segments, size: nat, parts: seq<seq<Entry>>, end: nat, i: nat)
    requires Laid(crc, segs, size, parts, end) && Sound(crc, segs, parts, end) && size < TWO32 && i < |Flat(parts)|
    ensures var from := Flat(parts)[i].lsn;
      ReplayFrom(crc, segs, from / TWO32, StartOffset(from)) == Flat(parts)[i..]
  {
    hide ParseAt, FramesAt, Size, Flat, ReplayFrom, Laid, Sound;
    var k, j := Place(parts, i);
    FlatSplit(parts, k);
    var off := SEGMENT_HEADER + Size(parts[k][..j]);
    assert FramesAt(crc, segs[k], k, SEGMENT_HEADER, parts[k]) && SEGMENT_HEADER + Size(parts[k]) <= size && k in segs
      by { LaidPart(crc, segs, size, parts, end, k); }
    FrameOf(crc, segs[k], k, SEGMENT_HEADER, parts[k], j);
    LsnParts(k, off, k, off);
    ReplayFrames(crc, segs, k, SEGMENT_HEADER, parts[k][..j]);
    ReplayRest(crc, segs, size, parts, end, k);
    var all, rest := ReplayFrom(crc, segs, k, SEGMENT_HEADER), ReplayFrom(crc, segs, k, off);
    assert rest == all[j..];
    assert Flat(parts)[i..] == Flat(parts[k..])[j..];
  }

  /** Replay from LSN zero, or from the first place in the log: every record. */
  lemma ReplayFromStart(crc: Crc, segs: Segments, size: nat, parts: seq<seq<Entry>>, end: nat, from: nat)
    requires Laid(crc, segs, size, parts, end) && Sound(crc, segs, parts, end)
    requires from == 0 || from == LsnOf(0, SEGMENT_HEADER)
    ensures ReplayFrom(crc, segs, from / TWO32, StartOffset(from)) == Flat(parts)
  {
    hide ParseAt, FramesAt, Size, Flat, ReplayFrom, Laid, Sound;
    SoundReplays(crc, segs, size, parts, end);
    assert from / TWO32 == 0 && StartOffset(from) == SEGMENT_HEADER by {
      LsnParts(0, SEGMENT_HEADER, 0, SEGMENT_HEADER);
    }
  }

  lemma LaidPart(crc: Crc, segs: Segments, size: nat, parts: seq<seq<Entry>>, end: nat, k: nat)
    requires Laid(crc, segs, size, parts, end) && k < |parts|
    ensures k in segs && FramesAt(crc, segs[k], k, SEGMENT_HEADER, parts[k]) && SEGMENT_HEADER + Size(parts[k]) <= size
  {
    hide ParseAt, FramesAt, Size;
    assert PartAt(crc, segs, parts, k);
  }

  lemma ReplayRest(crc: Crc, segs: Segments, size: nat, parts: seq<seq<Entry>>, end: nat, k: nat)
    requires Laid(crc, segs, size, parts, end) && Sound(crc, segs, parts, end) && k < |parts|
    ensures ReplayFrom(crc, segs, k, SEGMENT_HEADER) == Flat(parts[k..])
  {
    hide ParseAt, FramesAt, Size, Flat, ReplayFrom;
    LaidKeys(crc, segs, size, parts, end);
    ReplayThrough(crc, segs, size, parts, end, k);
    TailOfLast(crc, segs, |parts| - 1, end);
  }

  lemma {:induction false} Place(parts: seq<seq<Entry>>, i: nat) returns (k: nat, j: nat)
    requires i < |Flat(parts)|
    ensures k < |parts| && j < |parts[k]| && i == |Flat(parts[..k])| + j && Flat(parts)[i] == parts[k][j]
  {
    var n := |parts| - 1;
    if i < |Flat(parts[..n])| {
      k, j := Place(parts[..n], i);
      assert parts[..n][..k] == parts[..k];
    } else {
      k, j := n, i - |Flat(parts[..n])|;
    }
  }

  lemma {:induction false} FlatSplit(parts: seq<seq<Entry>>, k: nat)
    requires k <= |parts|
    ensures Flat(parts) == Flat(parts[..k]) + Flat(parts[k..])
  {
    if k == |parts| {
      assert parts[..k] == parts;
    } else {
      var n := |parts| - 1;
      FlatSplit(parts[..n], k);
      assert parts[..n][..k] == parts[..k] && parts[..n][k..] == parts[k..][..n - k];
      assert parts[k..][n - k] == parts[n];
    }
  }

  lemma FrameOf(crc: Crc, bytes: seq<byte>, seg: nat, off: nat, es: seq<Entry>, j: nat)
    requires FramesAt(crc, bytes, seg, off, es) && j < |es|
    ensures FramesAt(crc, bytes, seg, off, es[..j]) && es[j].lsn == LsnOf(seg, off + Size(es[..j]))
    ensures Size(es[..j]) < Size(es)
  {
    hide ParseAt;
    FramesTake(crc, bytes, seg, off, es, j + 1);
    assert es[..j + 1][..j] == es[..j];
  }

  /** With the closed segments clean, replay is the log and whatever follows it in the active segment. */
  lemma {:induction false} ReplayThrough(crc: Crc, segs: Segments, size: nat, parts: seq<seq<Entry>>, end: nat, k: nat)
    requires Laid(crc, segs, size, parts, end) && k < |parts| && forall s :: 0 <= s < |parts| ==> s in segs
    requires forall s :: k <= s < |parts| - 1 ==> CleanEnd(crc, segs[s], SEGMENT_HEADER + Size(parts[s]))
    ensures ReplayFrom(crc, segs, k, SEGMENT_HEADER) == Flat(parts[k..]) + ReplayFrom(crc, segs, |parts| - 1, end)
    decreases |parts| - k
  {
    hide ParseAt, FramesAt, Size, Flat, ReplayFrom;
    assert PartAt(crc, segs, parts, k);
    ReplayFrames(crc, segs, k, SEGMENT_HEADER, parts[k]);
    FlatHead(parts[k..]);
    if k == |parts| - 1 {
      FlatNone(parts[k..][1..]);
    } else {
      ReplayEnd(crc, segs, k, SEGMENT_HEADER + Size(parts[k]));
      ReplayThrough(crc, segs, size, parts, end, k + 1);
      assert parts[k..][1..] == parts[k + 1..];
    }
  }

  /**
   * Appending without rotation is replayed exactly when the bytes after the new record are not, by
   * chance or from an earlier life of the segment, a complete record themselves.
   */
  lemma AppendReplaysIff(crc: Crc, segs: Segments, size: nat, parts: seq<seq<Entry>>, end: nat, e: Entry)
    requires Laid(crc, segs, size, parts, end) && Sound(crc, segs, parts, end) && EntryOk(e) && end + Total(e) <= size
    requires e.lsn == LsnOf(|parts| - 1, end)
    ensures |segs[|parts| - 1]| == size
    ensures var segs' := Write(segs, |parts| - 1, end, FrameBytes(crc, e));
      && (Replays(crc, segs', Plus(parts, e)) <==> !ParseAt(crc, segs[|parts| - 1], end + Total(e)).Rec?)
      && (Replays(crc, segs', Plus(parts, e)) <==> Sound(crc, segs', Plus(parts, e), end + Total(e)))
  {
    hide ParseAt, FramesAt, Size, Flat, ReplayFrom, FrameBytes, Laid, EntryOk, Sound, Replays, LsnOf;
    LaidAppend(crc, segs, size, parts, end, e);
    LaidKeys(crc, segs, size, parts, end);
    var a := |parts| - 1;
    var segs', end' := Write(segs, a, end, FrameBytes(crc, e)), end + Total(e);
    BlitTail(segs[a], end, FrameBytes(crc, e));
    ParseTail(crc, segs[a], segs'[a], end');
    hide Blit;
    GrownReplaysIff(crc, segs, segs', size, parts, Plus(parts, e), end, end');
  }

  lemma BlitTail(bytes: seq<byte>, off: nat, data: seq<byte>)
    requires off + |data| <= |bytes|
    ensures Blit(bytes, off, data)[off + |data|..] == bytes[off + |data|..]
  {
  }

  lemma GrownReplaysIff(crc: Crc, segs: Segments, segs': Segments, size: nat, parts: seq<seq<Entry>>,
                        parts': seq<seq<Entry>>, end: nat, end': nat)
    requires Sound(crc, segs, parts, end) && Laid(crc, segs', size, parts', end') && |parts'| == |parts|
    requires forall s :: 0 <= s < |parts| - 1 ==> s in segs' && segs'[s] == segs[s] && parts'[s] == parts[s]
    ensures |parts| - 1 in segs'
    ensures Replays(crc, segs', parts') <==> !ParseAt(crc, segs'[|parts| - 1], end').Rec?
    ensures Sound(crc, segs', parts', end') <==> !ParseAt(crc, segs'[|parts| - 1], end').Rec?
  {
    hide ParseAt, FramesAt, Size, Flat, ReplayFrom;
    LaidKeys(crc, segs', size, parts', end');
    forall s | 0 <= s < |parts| - 1 ensures CleanEnd(crc, segs'[s], SEGMENT_HEADER + Size(parts'[s])) {
      assert CleanEnd(crc, segs[s], SEGMENT_HEADER + Size(parts[s]));
    }
    ReplayThrough(crc, segs', size, parts', end', 0);
    assert parts'[0..] == parts';
    TailOfLast(crc, segs', |parts| - 1, end');
    hide Laid;
  }

  lemma LaidKeys(crc: Crc, segs: Segments, size: nat, parts: seq<seq<Entry>>, end: nat)
    requires Laid(crc, segs, size, parts, end)
    ensures parts != [] && |parts| !in segs && forall s :: 0 <= s < |parts| ==> s in segs
  {
  }

  lemma TailOfLast(crc: Crc, segs: Segments, a: nat, off: nat)
    requires a in segs
    ensures ParseAt(crc, segs[a], off).Rec? ==> ReplayFrom(crc, segs, a, off) != []
    ensures !ParseAt(crc, segs[a], off).Rec? && a + 1 !in segs ==> ReplayFrom(crc, segs, a, off) == []
  {
    hide ParseAt;
  }

  /**
   * Appending with rotation is replayed exactly when the segment left behind ends cleanly: with fewer
   * than 32 bytes left, or eight zero bytes where the next record would have been.
   */
  lemma RotateReplaysIff(crc: Crc, segs: Segments, size: nat, parts: seq<seq<Entry>>, end: nat, fresh': seq<byte>,
                         e: Entry)
    requires Laid(crc, segs, size, parts, end) && Sound(crc, segs, parts, end)
    requires |fresh'| == size && EntryOk(e) && SEGMENT_HEADER + Total(e) <= size
      && e.lsn == LsnOf(|parts|, SEGMENT_HEADER)
    requires !ParseAt(crc, fresh', SEGMENT_HEADER + Total(e)).Rec?
    ensures var segs', parts' :=
      Write(segs[|parts| := fresh'], |parts|, SEGMENT_HEADER, FrameBytes(crc, e)), Plus(parts + [[]], e);
      && (Replays(crc, segs', parts') <==> CleanEnd(crc, segs[|parts| - 1], end))
      && (Replays(crc, segs', parts') <==> Sound(crc, segs', parts', SEGMENT_HEADER + Total(e)))
  {
    hide ParseAt, FramesAt, Size, Flat, ReplayFrom, FrameBytes, EntryOk;
    var a, none: seq<Entry> := |parts| - 1, [];
    var segs1, parts1 := segs[|parts| := fresh'], parts + [none];
    LaidRotate(crc, segs, size, parts, end, fresh');
    LaidAppend(crc, segs1, size, parts1, SEGMENT_HEADER, e);
    var segs', parts', end' :=
      Write(segs1, |parts|, SEGMENT_HEADER, FrameBytes(crc, e)), Plus(parts1, e), SEGMENT_HEADER + Total(e);
    assert segs'[|parts|][end'..] == fresh'[end'..];
    ParseTail(crc, fresh', segs'[|parts|], end');
    hide Blit;
    FlatPlus(parts1, e);
    LaidKeys(crc, segs', size, parts', end');
    if CleanEnd(crc, segs[a], end) {
      SoundAfterRotate(crc, segs, segs', parts, parts', end, end');
      SoundReplays(crc, segs', size, parts', end');
    } else {
      StopsShort(crc, segs, segs', size, parts, parts', end, end');
    }
  }

  lemma SoundAfterRotate(crc: Crc, segs: Segments, segs': Segments, parts: seq<seq<Entry>>, parts': seq<seq<Entry>>,
                         end: nat, end': nat)
    requires Sound(crc, segs, parts, end) && end == SEGMENT_HEADER + Size(parts[|parts| - 1]) && |parts'| == |parts| + 1
    requires forall s :: 0 <= s < |parts| ==> s in segs' && segs'[s] == segs[s] && parts'[s] == parts[s]
    requires |parts| in segs' && !ParseAt(crc, segs'[|parts|], end').Rec?
    ensures Sound(crc, segs', parts', end') <==> CleanEnd(crc, segs[|parts| - 1], end)
  {
    hide ParseAt, Size;
    if Sound(crc, segs', parts', end') {
      assert CleanEnd(crc, segs'[|parts| - 1], SEGMENT_HEADER + Size(parts'[|parts| - 1]));
    }
  }

  /** Replay stops in the old segment and never reaches the new one. */
  lemma StopsShort(crc: Crc, segs: Segments, segs': Segments, size: nat, parts: seq<seq<Entry>>,
                   parts': seq<seq<Entry>>, end: nat, end': nat)
    requires Laid(crc, segs, size, parts, end) && Sound(crc, segs, parts, end) && !CleanEnd(crc, segs[|parts| - 1], end)
    requires |parts'| == |parts| + 1 && |parts| in segs' && !ParseAt(crc, segs'[|parts|], end').Rec?
    requires forall s :: 0 <= s < |parts| ==> s in segs' && segs'[s] == segs[s] && parts'[s] == parts[s]
    requires |Flat(parts')| > |Flat(parts)|
    ensures !Replays(crc, segs', parts') && !Sound(crc, segs', parts', end')
  {
    hide ParseAt, FramesAt, Size, Flat, ReplayFrom;
    SoundAfterRotate(crc, segs, segs', parts, parts', end, end');
    StoppedReplay(crc, segs, segs', size, parts, end, 0);
    assert parts[0..] == parts;
  }

  lemma {:induction false} StoppedReplay(crc: Crc, segs: Segments, segs': Segments, size: nat, parts: seq<seq<Entry>>,
                                         end: nat, k: nat)
    requires Laid(crc, segs, size, parts, end) && Sound(crc, segs, parts, end)
      && ParseAt(crc, segs[|parts| - 1], end).Torn?
    requires k < |parts| && forall s :: 0 <= s < |parts| ==> s in segs' && segs'[s] == segs[s]
    ensures ReplayFrom(crc, segs', k, SEGMENT_HEADER) == Flat(parts[k..])
    decreases |parts| - k
  {
    hide ParseAt, FramesAt, Size, Flat, ReplayFrom;
    assert PartAt(crc, segs, parts, k);
    ReplayFrames(crc, segs', k, SEGMENT_HEADER, parts[k]);
    ReplayEnd(crc, segs', k, SEGMENT_HEADER + Size(parts[k]));
    FlatHead(parts[k..]);
    if k == |parts| - 1 {
      FlatNone(parts[k..][1..]);
    } else {
      StoppedReplay(crc, segs, segs', size, parts, end, k + 1);
      assert parts[k..][1..] == parts[k + 1..];
    }
  }

  // ----- LSN order -----

  ghost predicate Increasing(es: seq<Entry>) {
    forall i, j :: 0 <= i < j < |es| ==> es[i].lsn < es[j].lsn
  }

  ghost predicate Between(es: seq<Entry>, lo: nat, hi: nat) {
    forall i :: 0 <= i < |es| ==> lo <= es[i].lsn < hi
  }

  lemma JoinIncreasing(a: seq<Entry>, b: seq<Entry>, lo: nat, m: nat, hi: nat)
    requires Increasing(a) && Increasing(b) && Between(a, lo, m) && Between(b, m, hi) && lo <= m <= hi
    ensures Increasing(a + b) && Between(a + b, lo, hi)
  {
  }

  lemma {:induction false} FramesIncreasing(crc: Crc, bytes: seq<byte>, seg: nat, off: nat, es: seq<Entry>)
    requires FramesAt(crc, bytes, seg, off, es)
    ensures Increasing(es) && Between(es, LsnOf(seg, off), LsnOf(seg, off + Size(es)))
    decreases |es|
  {
    if es == [] {
      NoneBetween(es, LsnOf(seg, off));
      hide *;
    } else {
      var n := |es| - 1;
      LastFrame(crc, bytes, seg, off, es);
      hide *;
      FramesIncreasing(crc, bytes, seg, off, es[..n]);
      SnocIncreasing(es, LsnOf(seg, off), LsnOf(seg, off + Size(es[..n])), LsnOf(seg, off + Size(es)));
    }
  }

  lemma LastFrame(crc: Crc, bytes: seq<byte>, seg: nat, off: nat, es: seq<Entry>)
    requires FramesAt(crc, bytes, seg, off, es) && es != []
    ensures var n := |es| - 1;
      es[n].lsn == LsnOf(seg, off + Size(es[..n])) < LsnOf(seg, off + Size(es)) && LsnOf(seg, off) <= es[n].lsn
      && FramesAt(crc, bytes, seg, off, es[..n])
  {
    hide ParseAt;
  }

  lemma SnocIncreasing(es: seq<Entry>, lo: nat, m: nat, hi: nat)
    requires es != [] && lo <= m == es[|es| - 1].lsn < hi
    requires Increasing(es[..|es| - 1]) && Between(es[..|es| - 1], lo, m)
    ensures Increasing(es) && Between(es, lo, hi)
  {
    assert forall i :: 0 <= i < |es| - 1 ==> es[..|es| - 1][i] == es[i];
  }

  /** The log's LSNs strictly increase, are never zero, and lie below the next one to be given out. */
  lemma {:induction false} LogIncreasing(crc: Crc, segs: Segments, size: nat, parts: seq<seq<Entry>>, end: nat, n: nat)
    requires Laid(crc, segs, size, parts, end) && 0 < n <= |parts| && size < TWO32
    ensures Increasing(Flat(parts[..n]))
      && Between(Flat(parts[..n]), 1, LsnOf(n - 1, SEGMENT_HEADER + Size(parts[n - 1])))
  {
    hide ParseAt, FramesAt, Size, Increasing, Between;
    assert PartAt(crc, segs, parts, n - 1);
    FramesIncreasing(crc, segs[n - 1], n - 1, SEGMENT_HEADER, parts[n - 1]);
    assert parts[..n] == parts[..n - 1] + [parts[n - 1]];
    FlatLast(parts[..n - 1], parts[n - 1]);
    if n > 1 {
      LogIncreasing(crc, segs, size, parts, end, n - 1);
      WiderBetween(Flat(parts[..n - 1]), 1, LsnOf(n - 2, SEGMENT_HEADER + Size(parts[n - 2])),
        LsnOf(n - 1, SEGMENT_HEADER));
    } else {
      NoneBetween(Flat(parts[..0]), LsnOf(0, SEGMENT_HEADER));
    }
    JoinIncreasing(Flat(parts[..n - 1]), parts[n - 1], 1, LsnOf(n - 1, SEGMENT_HEADER),
      LsnOf(n - 1, SEGMENT_HEADER + Size(parts[n - 1])));
  }

  lemma WiderBetween(es: seq<Entry>, lo: nat, hi: nat, hi': nat)
    requires Between(es, lo, hi) && hi <= hi'
    ensures Between(es, lo, hi')
  {
  }

  lemma NoneBetween(es: seq<Entry>, hi: nat)
    requires es == []
    ensures Increasing(es) && forall lo :: Between(es, lo, hi)
  {
  }

  // ----- Scanning -----

  /** Going from record to record, whatever parses was written at its place: the checksum is not fooled. */
  ghost predicate Genuine(crc: Crc, bytes: seq<byte>, seg: nat, off: nat)
    decreases if off <= |bytes| then |bytes| - off else 0
  {
    ParseAt(crc, bytes, off).Rec? ==>
      && ParseAt(crc, bytes, off).entry.lsn == LsnOf(seg, off)
      && Genuine(crc, bytes, seg, off + Total(ParseAt(crc, bytes, off).entry))
  }

  lemma GenuineNext(crc: Crc, bytes: seq<byte>, seg: nat, off: nat)
    requires Genuine(crc, bytes, seg, off) && ParseAt(crc, bytes, off).Rec?
    ensures ParseAt(crc, bytes, off).entry.lsn == LsnOf(seg, off)
    ensures Genuine(crc, bytes, seg, off + Total(ParseAt(crc, bytes, off).entry))
  {
    hide ParseAt;
  }

  /** `scan_active`: the run of complete records, where it ends, and the last LSN in it. */
  method ScanActive(crc: Crc, bytes: seq<byte>, seg: nat) returns (end: nat, last: nat, ghost es: seq<Entry>)
    requires Genuine(crc, bytes, seg, SEGMENT_HEADER) && SEGMENT_HEADER <= |bytes|
    ensures FramesAt(crc, bytes, seg, SEGMENT_HEADER, es) && end == SEGMENT_HEADER + Size(es) <= |bytes|
    ensures !ParseAt(crc, bytes, end).Rec?
    ensures last == LastLsn(es)
  {
    end, last, es := SEGMENT_HEADER, 0, [];
    NoFrames(crc, bytes, seg, SEGMENT_HEADER);
    assert Scanned(crc, bytes, seg, end, last, es);
    hide ParseAt, Scanned;
    while ParseAt(crc, bytes, end).Rec?
      invariant Scanned(crc, bytes, seg, end, last, es) && end <= |bytes|
      decreases |bytes| - end
    {
      var e := ParseAt(crc, bytes, end).entry;
      ScanNext(crc, bytes, seg, end, last, es);
      last, end, es := e.lsn, end + Total(e), es + [e];
    }
    ScanDone(crc, bytes, seg, end, last, es);
  }

  /** How far a scan has come: the records `es`, ending at `end`. */
  ghost predicate Scanned(crc: Crc, bytes: seq<byte>, seg: nat, end: nat, last: nat, es: seq<Entry>) {
    && FramesAt(crc, bytes, seg, SEGMENT_HEADER, es) && end == SEGMENT_HEADER + Size(es) <= |bytes|
    && last == LastLsn(es) && Genuine(crc, bytes, seg, end)
  }

  lemma ScanNext(crc: Crc, bytes: seq<byte>, seg: nat, end: nat, last: nat, es: seq<Entry>)
    requires Scanned(crc, bytes, seg, end, last, es) && ParseAt(crc, bytes, end).Rec?
    ensures var e := ParseAt(crc, bytes, end).entry;
      Scanned(crc, bytes, seg, end + Total(e), e.lsn, es + [e]) && end + Total(e) <= |bytes|
  {
    hide ParseAt, FramesAt, Genuine, Size;
    var e := ParseAt(crc, bytes, end).entry;
    RecFits(crc, bytes, end);
    GenuineNext(crc, bytes, seg, end);
    FramesLast(crc, bytes, seg, SEGMENT_HEADER, es, e);
    SizeLast(es, e);
  }

  lemma ScanDone(crc: Crc, bytes: seq<byte>, seg: nat, end: nat, last: nat, es: seq<Entry>)
    requires Scanned(crc, bytes, seg, end, last, es)
    ensures FramesAt(crc, bytes, seg, SEGMENT_HEADER, es) && end == SEGMENT_HEADER + Size(es) <= |bytes|
      && last == LastLsn(es)
  {
  }

  function LastLsn(es: seq<Entry>): nat { if es == [] then 0 else es[|es| - 1].lsn }

  /** The scan finds every record that stands complete from the start, and no run of records goes past it. */
  lemma {:induction false} ScanCovers(crc: Crc, bytes: seq<byte>, seg: nat, off: nat, es: seq<Entry>, found: seq<Entry>)
    requires FramesAt(crc, bytes, seg, off, es)
    requires FramesAt(crc, bytes, seg, off, found) && !ParseAt(crc, bytes, off + Size(found)).Rec?
    ensures es <= found
    decreases |es|
  {
    hide ParseAt, Size;
    if es != [] {
      var n := |es| - 1;
      ScanCovers(crc, bytes, seg, off, es[..n], found);
      assert found[..n] == es[..n];
      assert FrameAt(crc, bytes, seg, off + Size(es[..n]), es[n]);
      hide FramesAt;
      FrameIn(crc, bytes, seg, off, found, n);
      assert es == es[..n] + [es[n]];
    }
  }

  lemma {:induction false} FrameIn(crc: Crc, bytes: seq<byte>, seg: nat, off: nat, es: seq<Entry>, i: nat)
    requires FramesAt(crc, bytes, seg, off, es) && i <= |es|
    ensures i < |es| ==> ParseAt(crc, bytes, off + Size(es[..i])) == Rec(es[i])
    ensures i == |es| ==> es[..i] == es
    decreases |es|
  {
    hide ParseAt;
    if i < |es| - 1 {
      FrameIn(crc, bytes, seg, off, es[..|es| - 1], i);
      assert es[..|es| - 1][..i] == es[..i];
    }
  }

  // ----- Clean tails -----

  predicate ZeroFrom(bytes: seq<byte>, off: nat) {
    forall i :: off <= i < |bytes| ==> bytes[i] == 0
  }

  lemma {:induction false} ZerosDecode(s: seq<byte>)
    requires forall i :: 0 <= i < |s| ==> s[i] == 0
    ensures FromLe(s) == 0
  {
    if s != [] { ZerosDecode(s[1..]); }
  }

  lemma ZeroIsClean(crc: Crc, bytes: seq<byte>, off: nat)
    requires ZeroFrom(bytes, off)
    ensures CleanEnd(crc, bytes, off)
  {
    if off + FRAME_HEADER <= |bytes| { ZerosDecode(bytes[off..off + 8]); }
  }

  /** A new segment: its header, then zeros. */
  function NewSegment(header: seq<byte>, size: nat): seq<byte>
    requires |header| == SEGMENT_HEADER <= size
  {
    header + seq(size - SEGMENT_HEADER, _ => 0)
  }

  /** Nothing has ever been written past the records: the closed segments end cleanly, the active one in zeros. */
  ghost predicate Untouched(crc: Crc, segs: Segments, parts: seq<seq<Entry>>, end: nat) {
    && parts != [] && (forall s :: 0 <= s < |parts| ==> s in segs) && ZeroFrom(segs[|parts| - 1], end)
    && (forall s :: 0 <= s < |parts| - 1 ==> CleanEnd(crc, segs[s], SEGMENT_HEADER + Size(parts[s])))
  }

  lemma UntouchedIsSound(crc: Crc, segs: Segments, parts: seq<seq<Entry>>, end: nat)
    requires Untouched(crc, segs, parts, end)
    ensures Sound(crc, segs, parts, end)
  {
    ZeroIsClean(crc, segs[|parts| - 1], end);
    hide ParseAt;
  }

  /** A log never reopened over leftover bytes replays to itself. */
  lemma UntouchedReplays(crc: Crc, segs: Segments, size: nat, parts: seq<seq<Entry>>, end: nat)
    requires Laid(crc, segs, size, parts, end) && Untouched(crc, segs, parts, end)
    ensures Replays(crc, segs, parts)
  {
    hide ParseAt, FramesAt, Size, Flat, Laid, Sound, Untouched, Replays;
    UntouchedIsSound(crc, segs, parts, end);
    SoundReplays(crc, segs, size, parts, end);
  }

  /** Whether the next append of `n` bytes will be replayed, as the bytes already in the active segment decide. */
  predicate NextClean(crc: Crc, bytes: seq<byte>, end: nat, n: nat, size: nat) {
    if end + n > size then CleanEnd(crc, bytes, end) else !ParseAt(crc, bytes, end + n).Rec?
  }

  lemma AppendUntouched(crc: Crc, segs: Segments, size: nat, parts: seq<seq<Entry>>, end: nat, e: Entry)
    requires Laid(crc, segs, size, parts, end) && Untouched(crc, segs, parts, end) && end + Total(e) <= size
    ensures |segs[|parts| - 1]| == size
    ensures Untouched(crc, Write(segs, |parts| - 1, end, FrameBytes(crc, e)), Plus(parts, e), end + Total(e))
  {
    hide ParseAt, FrameBytes, Size;
    var a := |parts| - 1;
    var segs' := Write(segs, a, end, FrameBytes(crc, e));
    forall s | 0 <= s < a ensures CleanEnd(crc, segs'[s], SEGMENT_HEADER + Size(Plus(parts, e)[s])) {
      assert CleanEnd(crc, segs[s], SEGMENT_HEADER + Size(parts[s]));
    }
  }

  lemma RotateUntouched(crc: Crc, segs: Segments, size: nat, parts: seq<seq<Entry>>, end: nat, fresh': seq<byte>)
    requires Laid(crc, segs, size, parts, end) && Untouched(crc, segs, parts, end) && ZeroFrom(fresh', SEGMENT_HEADER)
    ensures Untouched(crc, segs[|parts| := fresh'], parts + [[]], SEGMENT_HEADER)
  {
    hide ParseAt, Size, ZeroFrom, FramesAt, CleanEnd;
    var none: seq<Entry> := [];
    var segs', parts' := segs[|parts| := fresh'], parts + [none];
    LaidKeys(crc, segs, size, parts, end);
    ZeroIsClean(crc, segs[|parts| - 1], end);
    assert end == SEGMENT_HEADER + Size(parts[|parts| - 1]);
    hide Laid;
    forall s | 0 <= s < |parts| ensures s in segs' && CleanEnd(crc, segs'[s], SEGMENT_HEADER + Size(parts'[s])) {
      assert segs'[s] == segs[s] && parts'[s] == parts[s];
    }
  }

  /** What an append promises of the log, its order and its replay. `clean` is `NextClean` of the state before. */
  ghost predicate Appended(crc: Crc, segs: Segments, parts: seq<seq<Entry>>, end: nat,
                           segs': Segments, parts': seq<seq<Entry>>, end': nat, e: Entry, clean: bool) {
    && Flat(parts') == Flat(parts) + [e] && Between(Flat(parts), 1, e.lsn) && e.lsn > 0
    && (Sound(crc, segs, parts, end) ==>
         (Replays(crc, segs', parts') <==> clean) && (Replays(crc, segs', parts') <==> Sound(crc, segs', parts', end')))
    && (Untouched(crc, segs, parts, end) ==> Untouched(crc, segs', parts', end'))
  }

  lemma AppendedHere(crc: Crc, segs: Segments, size: nat, parts: seq<seq<Entry>>, end: nat, e: Entry)
    requires Laid(crc, segs, size, parts, end) && EntryOk(e) && end + Total(e) <= size < TWO32
      && e.lsn == LsnOf(|parts| - 1, end)
    ensures |parts| - 1 in segs && |segs[|parts| - 1]| == size
    ensures var segs' := Write(segs, |parts| - 1, end, FrameBytes(crc, e));
      && Laid(crc, segs', size, Plus(parts, e), end + Total(e))
      && Appended(crc, segs, parts, end, segs', Plus(parts, e), end + Total(e), e,
           NextClean(crc, segs[|parts| - 1], end, Total(e), size))
  {
    hide ParseAt, FramesAt, Size, Flat, Laid, FrameBytes, Sound, Untouched, Replays, Between, CleanEnd, EntryOk, LsnOf,
      Write, Plus;
    LaidAppend(crc, segs, size, parts, end, e);
    LaidBound(crc, segs, size, parts, end);
    PlusFacts(parts, e);
    LogBelow(crc, segs, size, parts, end);
    if Sound(crc, segs, parts, end) { AppendReplaysIff(crc, segs, size, parts, end, e); }
    if Untouched(crc, segs, parts, end) { AppendUntouched(crc, segs, size, parts, end, e); }
  }

  lemma PlusFacts(parts: seq<seq<Entry>>, e: Entry)
    requires parts != []
    ensures Flat(Plus(parts, e)) == Flat(parts) + [e] && |Plus(parts, e)| == |parts|
      && LastLsn(Plus(parts, e)[|parts| - 1]) == e.lsn
  {
    FlatPlus(parts, e);
  }

  lemma LogBelow(crc: Crc, segs: Segments, size: nat, parts: seq<seq<Entry>>, end: nat)
    requires Laid(crc, segs, size, parts, end) && size < TWO32
    ensures Between(Flat(parts), 1, LsnOf(|parts| - 1, end)) && LsnOf(|parts| - 1, end) > 0
    ensures Increasing(Flat(parts))
  {
    hide ParseAt, FramesAt, Size, Flat, Increasing, Between;
    LogIncreasing(crc, segs, size, parts, end, |parts|);
    assert parts[..|parts|] == parts;
  }

  lemma AppendedRotated(crc: Crc, segs: Segments, size: nat, parts: seq<seq<Entry>>, end: nat, header: seq<byte>,
                        e: Entry)
    requires Laid(crc, segs, size, parts, end) && EntryOk(e) && |header| == SEGMENT_HEADER
      && SEGMENT_HEADER + Total(e) <= size < TWO32
    requires end + Total(e) > size && e.lsn == LsnOf(|parts|, SEGMENT_HEADER)
    ensures |parts| - 1 in segs
    ensures var segs1 := segs[|parts| := NewSegment(header, size)];
      var segs', parts', end' :=
        Write(segs1, |parts|, SEGMENT_HEADER, FrameBytes(crc, e)), Plus(parts + [[]], e), SEGMENT_HEADER + Total(e);
      && Laid(crc, segs', size, parts', end')
      && Appended(crc, segs, parts, end, segs', parts', end', e, NextClean(crc, segs[|parts| - 1], end, Total(e), size))
  {
    var none: seq<Entry>, zeros := [], NewSegment(header, size);
    var segs1, parts1 := segs[|parts| := zeros], parts + [none];
    hide ParseAt, FramesAt, Size, Flat, Laid, FrameBytes, Sound, Untouched, Replays, Between, LsnOf, ZeroFrom,
      NewSegment, EntryOk, CleanEnd, Write, Plus;
    NewSegmentIs(crc, header, size, SEGMENT_HEADER + Total(e));
    LaidBound(crc, segs, size, parts, end);
    LaidRotate(crc, segs, size, parts, end, zeros);
    AppendedHere(crc, segs1, size, parts1, SEGMENT_HEADER, e);
    if Sound(crc, segs, parts, end) { RotateReplaysIff(crc, segs, size, parts, end, zeros, e); }
    if Untouched(crc, segs, parts, end) { RotateUntouched(crc, segs, size, parts, end, zeros); }
  }

  lemma NewSegmentIs(crc: Crc, header: seq<byte>, size: nat, off: nat)
    requires |header| == SEGMENT_HEADER <= size && SEGMENT_HEADER <= off
    ensures var zeros := NewSegment(header, size);
      |zeros| == size && ZeroFrom(zeros, SEGMENT_HEADER) && !ParseAt(crc, zeros, off).Rec?
  {
    ZeroIsClean(crc, NewSegment(header, size), off);
  }

  lemma LaidBound(crc: Crc, segs: Segments, size: nat, parts: seq<seq<Entry>>, end: nat)
    requires Laid(crc, segs, size, parts, end)
    ensures SEGMENT_HEADER <= end <= size && |parts| - 1 in segs && |segs[|parts| - 1]| == size
  {
  }

  lemma LsnFits(seg: nat, off: nat)
    requires seg < TWO32 && 0 < off < TWO32
    ensures 0 < LsnOf(seg, off) < TWO64
  {
  }

  lemma LsnGrows(seg: nat, off: nat, off': nat)
    requires off < off'
    ensures LsnOf(seg, off) < LsnOf(seg, off')
  {
  }

  lemma CoveredLast(es: seq<Entry>, e: Entry, durable: nat, safe: nat, safe': nat)
    requires Covered(es, durable, safe) && safe <= safe' && durable < e.lsn
    ensures Covered(es + [e], durable, safe')
  {
  }

  /** What has been read and what is still to come make up the whole replay. */
  ghost predicate Rest(crc: Crc, segs: Segments, seg: nat, off: nat, out: seq<Entry>, all: seq<Entry>) {
    out + ReplayFrom(crc, segs, seg, off) == all
  }

  lemma RestAll(crc: Crc, segs: Segments, seg: nat, off: nat)
    ensures Rest(crc, segs, seg, off, [], ReplayFrom(crc, segs, seg, off))
  {
    hide ReplayFrom;
  }

  lemma RestNone(crc: Crc, segs: Segments, seg: nat, off: nat, out: seq<Entry>, all: seq<Entry>)
    requires Rest(crc, segs, seg, off, out, all) && seg !in segs
    ensures out == all
  {
    ReplayNone(crc, segs, seg, off);
    hide ReplayFrom;
  }

  lemma RestStep(crc: Crc, segs: Segments, seg: nat, off: nat, out: seq<Entry>, all: seq<Entry>)
    requires Rest(crc, segs, seg, off, out, all) && seg in segs
    ensures match ParseAt(crc, segs[seg], off)
      case Empty => Rest(crc, segs, seg + 1, SEGMENT_HEADER, out, all)
      case Torn => out == all
      case Rec(e) => Rest(crc, segs, seg, off + Total(e), out + [e], all)
  {
    hide ParseAt;
    match ParseAt(crc, segs[seg], off) {
      case Rec(e) =>
        ReplayRec(crc, segs, seg, off, e);
        hide ReplayFrom;
        SeqAssoc(out, [e], ReplayFrom(crc, segs, seg, off + Total(e)));
      case _ =>
        ReplayEnd(crc, segs, seg, off);
        hide ReplayFrom;
    }
  }

  function StartOffset(from: nat): nat { if from % TWO32 < SEGMENT_HEADER then SEGMENT_HEADER else from % TWO32 }

  /** Segment files `0..active` on disk, all but the newest holding the records `closed`. */
  ghost predicate Stored(crc: Crc, size: nat, disk: Segments, active: nat, closed: seq<seq<Entry>>) {
    && (forall s: nat :: s in disk <==> s <= active) && (forall s :: s in disk ==> |disk[s]| == size)
    && |closed| == active
    && (forall s :: 0 <= s < active ==>
         FramesAt(crc, disk[s], s, SEGMENT_HEADER, closed[s]) && SEGMENT_HEADER + Size(closed[s]) <= size)
  }

  lemma StoredLaid(crc: Crc, size: nat, disk: Segments, active: nat, closed: seq<seq<Entry>>, found: seq<Entry>,
                   end: nat)
    requires Stored(crc, size, disk, active, closed) && FramesAt(crc, disk[active], active, SEGMENT_HEADER, found)
    requires end == SEGMENT_HEADER + Size(found) <= size
    ensures Laid(crc, disk, size, closed + [found], end)
  {
    hide FramesAt, Size, ParseAt;
    var parts := closed + [found];
    forall s | s in disk ensures |disk[s]| == size && PartAt(crc, disk, parts, s) {
    }
  }

  lemma LastBelow(crc: Crc, segs: Segments, size: nat, parts: seq<seq<Entry>>, end: nat, active: nat)
    requires Laid(crc, segs, size, parts, end) && size < TWO32 && |parts| == active + 1
    ensures LastLsn(parts[active]) < LsnOf(active, end)
  {
    hide FramesAt, ParseAt, Size, Flat;
    assert PartAt(crc, segs, parts, active);
    FramesIncreasing(crc, segs[active], active, SEGMENT_HEADER, parts[active]);
  }

  /**
   * A crash keeps what was flushed: whatever became of the bytes after the flushed part of the newest
   * segment, the records found on reopening start with all the flushed ones.
   */
  lemma CrashKeepsFlushed(crc: Crc, segs: Segments, size: nat, parts: seq<seq<Entry>>, end: nat, safe: nat,
                          k: nat, bytes: seq<byte>, found: seq<Entry>)
    requires Laid(crc, segs, size, parts, end) && safe <= |Flat(parts)| && FlushedTo(parts, safe, k)
    requires |parts| - 1 in segs && k <= |bytes| == |segs[|parts| - 1]| && bytes[..k] == segs[|parts| - 1][..k]
    requires FramesAt(crc, bytes, |parts| - 1, SEGMENT_HEADER, found)
      && !ParseAt(crc, bytes, SEGMENT_HEADER + Size(found)).Rec?
    ensures Flat(parts)[..safe] <= Flat(parts[..|parts| - 1] + [found])
  {
    hide Flat, FramesAt, ParseAt, Size, Laid;
    LastPart(crc, segs, size, parts, end);
    var a := |parts| - 1;
    var closed, es := parts[..a], parts[a];
    FlatLast(closed, found);
    FlatLast(closed, es);
    FoundJoin(crc, segs[a], bytes, a, Flat(closed), es, safe, k, found);
  }

  lemma LastPart(crc: Crc, segs: Segments, size: nat, parts: seq<seq<Entry>>, end: nat)
    requires Laid(crc, segs, size, parts, end) && |parts| - 1 in segs
    ensures var a := |parts| - 1;
      parts == parts[..a] + [parts[a]] && FramesAt(crc, segs[a], a, SEGMENT_HEADER, parts[a])
  {
    hide FramesAt, Size;
    assert PartAt(crc, segs, parts, |parts| - 1);
  }

  lemma FoundJoin(crc: Crc, bytes: seq<byte>, bytes': seq<byte>, seg: nat, closed: seq<Entry>, es: seq<Entry>,
                  safe: nat, k: nat, found: seq<Entry>)
    requires FramesAt(crc, bytes, seg, SEGMENT_HEADER, es) && safe <= |closed| + |es|
    requires safe > |closed| ==> SEGMENT_HEADER + Size(es[..safe - |closed|]) <= k
    requires k <= |bytes'| == |bytes| && bytes'[..k] == bytes[..k]
    requires FramesAt(crc, bytes', seg, SEGMENT_HEADER, found)
      && !ParseAt(crc, bytes', SEGMENT_HEADER + Size(found)).Rec?
    ensures (closed + es)[..safe] <= closed + found
  {
    hide FramesAt, ParseAt, Size;
    if safe > |closed| { ScanKeeps(crc, bytes, bytes', seg, es, safe - |closed|, k, found); }
    PrefixJoin(closed, es, found, safe);
  }

  lemma ScanKeeps(crc: Crc, bytes: seq<byte>, bytes': seq<byte>, seg: nat, es: seq<Entry>, n: nat, k: nat,
                  found: seq<Entry>)
    requires FramesAt(crc, bytes, seg, SEGMENT_HEADER, es) && n <= |es| && SEGMENT_HEADER + Size(es[..n]) <= k
    requires k <= |bytes'| == |bytes| && bytes'[..k] == bytes[..k]
    requires FramesAt(crc, bytes', seg, SEGMENT_HEADER, found)
      && !ParseAt(crc, bytes', SEGMENT_HEADER + Size(found)).Rec?
    ensures es[..n] <= found
  {
    hide FramesAt, ParseAt, Size;
    FramesTake(crc, bytes, seg, SEGMENT_HEADER, es, n);
    FramesKept(crc, bytes, bytes', seg, SEGMENT_HEADER, es[..n], k);
    ScanCovers(crc, bytes', seg, SEGMENT_HEADER, es[..n], found);
  }

  /** The first `k` bytes of the active segment hold those of its records that are among the first `safe`. */
  ghost predicate FlushedTo(parts: seq<seq<Entry>>, safe: nat, k: nat)
    requires parts != []
  {
    var a := |parts| - 1;
    var n := safe - |Flat(parts[..a])|;
    n > 0 ==> n <= |parts[a]| && SEGMENT_HEADER + Size(parts[a][..n]) <= k
  }

  lemma PrefixJoin(a: seq<Entry>, b: seq<Entry>, c: seq<Entry>, n: nat)
    requires n <= |a + b| && (n > |a| ==> b[..n - |a|] <= c)
    ensures (a + b)[..n] <= a + c
  {
    if n > |a| {
      assert (a + b)[..n] == a + b[..n - |a|];
    } else {
      assert (a + b)[..n] == a[..n];
    }
  }

  lemma {:induction false} FramesTake(crc: Crc, bytes: seq<byte>, seg: nat, off: nat, es: seq<Entry>, n: nat)
    requires FramesAt(crc, bytes, seg, off, es) && n <= |es|
    ensures FramesAt(crc, bytes, seg, off, es[..n]) && Size(es[..n]) <= Size(es)
    decreases |es|
  {
    hide ParseAt;
    if n == |es| {
      assert es[..n] == es;
    } else {
      FramesTake(crc, bytes, seg, off, es[..|es| - 1], n);
      assert es[..|es| - 1][..n] == es[..n];
    }
  }

  // ----- A torn tail left behind -----

  /** What is left of a frame whose write was cut off before its checksum. */
  function TornFrame(g: Entry): (s: seq<byte>)
    ensures |s| == Total(g)
  {
    Head(g) + [0, 0, 0, 0]
  }

  lemma FrameIsTorn(crc: Crc, bytes: seq<byte>, off: nat, g: Entry)
    requires EntryOk(g) && off + Total(g) <= |bytes| && bytes[off..off + Total(g)] == TornFrame(g)
      && Sum(crc, Head(g)) != 0
    ensures ParseAt(crc, bytes, off) == Torn
  {
    hide TornFrame, Head, FromLe, Sum, ParseAt;
    var s, n := TornFrame(g), FRAME_HEADER + |g.body|;
    TornFields(g);
    Slices(bytes, off, s, n);
    TornParse(crc, bytes, off, |g.body|);
  }

  lemma TornFields(g: Entry)
    requires EntryOk(g)
    ensures var s, n := TornFrame(g), FRAME_HEADER + |g.body|;
      FromLe(s[0..8]) == g.lsn && FromLe(s[8..12]) == |g.body| && s[0..n] == Head(g) && FromLe(s[n..n + 4]) == 0
  {
    var s, n := TornFrame(g), FRAME_HEADER + |g.body|;
    var h, z: seq<byte> := Head(g), [0, 0, 0, 0];
    HeadDecodes(g);
    ZerosDecode(z);
    assert s == h + z;
    hide *;
    assert s[n..n + 4] == z && h[0..n] == h;
    Left(h, z, 0, 8);
    Left(h, z, 8, 12);
    Left(h, z, 0, n);
  }

  /** The right length and the wrong checksum. */
  lemma TornParse(crc: Crc, bytes: seq<byte>, off: nat, n: nat)
    requires off + FRAME_HEADER + n + CRC_SIZE <= |bytes|
    requires FromLe(bytes[off..off + 8]) != 0 && FromLe(bytes[off + 8..off + 12]) == n
    requires var end := off + FRAME_HEADER + n; FromLe(bytes[end..end + 4]) != Sum(crc, bytes[off..end])
    ensures ParseAt(crc, bytes, off) == Torn
  {
    hide FromLe, Sum;
  }

  /** Bytes after the last record can be anything without changing which records the log holds. */
  lemma LaidTail(crc: Crc, segs: Segments, size: nat, parts: seq<seq<Entry>>, end: nat, bytes: seq<byte>)
    requires Laid(crc, segs, size, parts, end) && |parts| - 1 in segs
    requires |bytes| == size && end <= size && bytes[..end] == segs[|parts| - 1][..end]
    ensures Laid(crc, segs[|parts| - 1 := bytes], size, parts, end)
  {
    hide ParseAt, FramesAt, Size;
    var a := |parts| - 1;
    var segs' := segs[a := bytes];
    assert PartAt(crc, segs, parts, a);
    FramesKept(crc, segs[a], bytes, a, SEGMENT_HEADER, parts[a], end);
    forall s | s in segs' ensures |segs'[s]| == size && PartAt(crc, segs', parts, s) {
      assert s != a ==> PartAt(crc, segs, parts, s);
    }
  }

  /**
   * Replay can lose acknowledged records. After `first` came a record `g` whose write was cut off before its
   * checksum. Reopened over it, the log rotates for `e`, and the new segment is never reached because the
   * old one no longer ends cleanly.
   */
  lemma TornTailHidesRotation(crc: Crc, header: seq<byte>, first: Entry, g: Entry, e: Entry) returns (segs: Segments)
    requires |header| == SEGMENT_HEADER && EntryOk(first) && first.lsn == LsnOf(0, SEGMENT_HEADER) && first.body == []
    requires EntryOk(g) && g.lsn == LsnOf(0, 100) && 100 + Total(g) <= 200 && Sum(crc, Head(g)) != 0
    requires EntryOk(e) && e.lsn == LsnOf(1, SEGMENT_HEADER) && |e.body| == 70
    ensures 0 in segs && |segs[0]| == 200 && segs[0][100..100 + Total(g)] == TornFrame(g)
    ensures Laid(crc, segs, 200, [[first]], 100) && Sound(crc, segs, [[first]], 100) && 100 + Total(e) > 200
    ensures var segs1 := segs[1 := NewSegment(header, 200)];
      !Replays(crc, Write(segs1, 1, SEGMENT_HEADER, FrameBytes(crc, e)), [[first], [e]])
  {
    hide ParseAt, FramesAt, FrameBytes, Blit, Write, Laid, NewSegment, Size;
    var whole := OneRecord(crc, header, first);
    LaidBound(crc, whole, 200, [[first]], 100);
    var bytes := TornAt(crc, whole[0], g);
    LaidTail(crc, whole, 200, [[first]], 100, bytes);
    segs := whole[0 := bytes];
    var none: seq<Entry>, zeros := [], NewSegment(header, 200);
    assert [[first]] + [none] == [[first], none] && none + [e] == [e];
    assert Plus([[first], none], e) == [[first], [e]];
    NewIsClean(crc, header, SEGMENT_HEADER + Total(e));
    RotateReplaysIff(crc, segs, 200, [[first]], 100, zeros, e);
  }

  lemma NewIsClean(crc: Crc, header: seq<byte>, off: nat)
    requires |header| == SEGMENT_HEADER <= off
    ensures CleanEnd(crc, NewSegment(header, 200), off) && |NewSegment(header, 200)| == 200
  {
    ZeroIsClean(crc, NewSegment(header, 200), off);
  }

  lemma OneRecord(crc: Crc, header: seq<byte>, first: Entry) returns (segs: Segments)
    requires |header| == SEGMENT_HEADER && EntryOk(first) && first.lsn == LsnOf(0, SEGMENT_HEADER) && first.body == []
    ensures Laid(crc, segs, 200, [[first]], 100)
  {
    var zeros := NewSegment(header, 200);
    var segs0, none: seq<seq<Entry>> := map[0 := zeros], [[]];
    NoFrames(crc, zeros, 0, SEGMENT_HEADER);
    assert PartAt(crc, segs0, none, 0);
    hide ParseAt, FramesAt, FrameBytes, Blit, Size;
    assert Laid(crc, segs0, 200, none, SEGMENT_HEADER);
    LaidAppend(crc, segs0, 200, none, SEGMENT_HEADER, first);
    segs := Write(segs0, 0, SEGMENT_HEADER, FrameBytes(crc, first));
    assert Plus(none, first) == [[first]];
  }

  lemma TornAt(crc: Crc, bytes: seq<byte>, g: Entry) returns (torn: seq<byte>)
    requires |bytes| == 200 && EntryOk(g) && 100 + Total(g) <= 200 && Sum(crc, Head(g)) != 0
    ensures |torn| == 200 && torn[..100] == bytes[..100] && ParseAt(crc, torn, 100) == Torn
    ensures torn[100..100 + Total(g)] == TornFrame(g)
  {
    hide ParseAt, TornFrame, Sum, Head;
    torn := Blit(bytes, 100, TornFrame(g));
    assert torn[100..100 + Total(g)] == TornFrame(g);
    FrameIsTorn(crc, torn, 100, g);
  }

  class Wal {
    const crc: Crc
    const size: nat
    var segs: Segments
    var activeId: nat
    var offset: nat
    var lastLsn: nat
    var durable: nat
    ghost var parts: seq<seq<Entry>>
    ghost var safe: nat

    ghost predicate Valid()
      reads this
    {
      && SEGMENT_HEADER <= size < TWO32 && Laid(crc, segs, size, parts, offset) && |parts| == activeId + 1
      && lastLsn == LastLsn(parts[activeId]) && durable < LsnOf(activeId, offset)
      && safe <= |Flat(parts)| && Covered(Flat(parts), durable, safe)
    }

    /** Every record appended, in order. */
    ghost function Entries(): seq<Entry>
      reads this
    {
      Flat(parts)
    }

    constructor Create(crc: Crc, size: nat, header: seq<byte>)
      requires |header| == SEGMENT_HEADER <= size < TWO32
      ensures Valid() && Entries() == [] && Untouched(this.crc, segs, parts, offset) && this.crc == crc
        && this.size == size
    {
      this.crc, this.size := crc, size;
      segs, activeId, offset := map[0 := NewSegment(header, size)], 0, SEGMENT_HEADER;
      lastLsn, durable, parts, safe := 0, 0, [[]], 0;
      new;
      NoFrames(crc, segs[0], 0, SEGMENT_HEADER);
      assert PartAt(crc, segs, parts, 0);
      FlatEmpty([]);
      FlatNone([]);
      assert [] + [[]] == parts;
      hide ParseAt, FramesAt, Size, Flat;
    }

    /**
     * Open an existing log: scan the newest segment for its complete records and go on after them.
     * The records found there are on disk; nothing is known of later ones, and the bytes after stay as they are.
     */
    constructor Reopen(crc: Crc, size: nat, disk: Segments, active: nat, ghost closed: seq<seq<Entry>>)
      requires SEGMENT_HEADER <= size < TWO32 && Stored(crc, size, disk, active, closed)
        && Genuine(crc, disk[active], active, SEGMENT_HEADER)
      ensures Valid() && this.crc == crc && this.size == size && segs == disk && activeId == active
      ensures parts[..active] == closed && !ParseAt(crc, disk[active], offset).Rec?
      ensures durable == lastLsn && safe == |Entries()|
    {
      hide ParseAt, FramesAt, Size, Flat, Genuine;
      this.crc, this.size := crc, size;
      ghost var found;
      var end, last;
      end, last, found := ScanActive(crc, disk[active], active);
      segs, activeId, offset, lastLsn, durable := disk, active, end, last, last;
      parts := closed + [found];
      safe := |Flat(closed + [found])|;
      new;
      StoredLaid(crc, size, disk, active, closed, found, end);
      LogBelow(crc, segs, size, parts, offset);
      LastBelow(crc, segs, size, parts, offset, active);
    }

    /** `flush_through`: afterwards every record up to the requested LSN is on disk. */
    method FlushThrough(upTo: nat)
      requires Valid()
      modifies this`durable, this`safe
      ensures Valid() && durable >= old(durable) && safe >= old(safe)
      ensures upTo <= lastLsn ==> durable >= upTo
      ensures Covered(Entries(), upTo, safe)
    {
      hide Laid, Flat;
      if durable >= upTo {
        return;
      }
      var target := lastLsn;
      LogBelow(crc, segs, size, parts, offset);
      LastBelow(crc, segs, size, parts, offset, activeId);
      safe := |Flat(parts)|;
      if durable < target {
        durable := target;
      }
    }

    /** `replay`: the records from an LSN on, until a torn record or the end of the last segment. */
    method ReplayAll(from: nat) returns (out: seq<Entry>)
      ensures out == ReplayFrom(crc, segs, from / TWO32, StartOffset(from))
      ensures Valid() && Sound(crc, segs, parts, offset) && (from == 0 || from == LsnOf(0, SEGMENT_HEADER)) ==>
        out == Entries()
      ensures Valid() && Sound(crc, segs, parts, offset) ==>
        forall i :: 0 <= i < |Entries()| && Entries()[i].lsn == from ==> out == Entries()[i..]
    {
      hide ParseAt, FramesAt, Size, Flat, ReplayFrom, Laid, Sound;
      if Valid() && Sound(crc, segs, parts, offset) {
        if from == 0 || from == LsnOf(0, SEGMENT_HEADER) {
          ReplayFromStart(crc, segs, size, parts, offset, from);
        }
        forall i | 0 <= i < |Flat(parts)| && Flat(parts)[i].lsn == from
          ensures ReplayFrom(crc, segs, from / TWO32, StartOffset(from)) == Flat(parts)[i..]
        {
          ReplayFromRecord(crc, segs, size, parts, offset, i);
        }
      }
      out := ReplayAt(from / TWO32, StartOffset(from));
    }

    /** The loop of the replay iterator. */
    method ReplayAt(seg0: nat, off0: nat) returns (out: seq<Entry>)
      ensures out == ReplayFrom(crc, segs, seg0, off0)
    {
      var seg: nat, off: nat := seg0, off0;
      out := [];
      ghost var all := ReplayFrom(crc, segs, seg, off);
      RestAll(crc, segs, seg, off);
      hide ParseAt, ReplayFrom, Later, Rest;
      while seg in segs
        invariant Rest(crc, segs, seg, off, out, all)
        decreases Later(segs, seg), if seg in segs && off <= |segs[seg]| then |segs[seg]| - off else 0
      {
        RestStep(crc, segs, seg, off, out, all);
        NextIsLess(segs, seg);
        match ParseAt(crc, segs[seg], off) {
          case Empty =>
            seg, off := seg + 1, SEGMENT_HEADER;
          case Torn =>
            return;
          case Rec(e) =>
            RecFits(crc, segs[seg], off);
            out, off := out + [e], off + Total(e);
        }
      }
      RestNone(crc, segs, seg, off, out, all);
    }

    /** A record too large for any segment is refused; otherwise it goes at the end, in a new segment if need be. */
    method Append(txn: nat, prev: nat, kind: byte, body: seq<byte>, header: seq<byte>) returns (lsn: Option<nat>)
      requires Valid() && txn < TWO64 && prev < TWO64 && |header| == SEGMENT_HEADER && activeId + 1 < TWO32
      modifies this
      ensures Valid() && durable == old(durable) && safe >= old(safe)
      ensures lsn.None? <==> FRAME_HEADER + |body| + CRC_SIZE > size - SEGMENT_HEADER
      ensures lsn.None? ==> parts == old(parts) && segs == old(segs)
      ensures lsn.Some? ==>
        && old(activeId in segs)
        && Appended(crc, old(segs), old(parts), old(offset), segs, parts, offset,
             Entry(lsn.value, txn, prev, kind, body),
                    NextClean(crc, old(segs[activeId]), old(offset), FRAME_HEADER + |body| + CRC_SIZE, size))
    {
      var total := FRAME_HEADER + |body| + CRC_SIZE;
      hide Laid, Flat, Appended, NextClean, Covered, LsnOf, LastLsn;
      LaidBound(crc, segs, size, parts, offset);
      if total > size - SEGMENT_HEADER {
        return None;
      }
      var e;
      if offset + total > size {
        e := Entry(LsnOf(activeId + 1, SEGMENT_HEADER), txn, prev, kind, body);
        LsnFits(activeId + 1, SEGMENT_HEADER);
        AppendNext(e, header);
      } else {
        e := Entry(LsnOf(activeId, offset), txn, prev, kind, body);
        LsnFits(activeId, offset);
        AppendHere(e);
      }
      lsn := Some(e.lsn);
    }

    method AppendHere(e: Entry)
      requires Valid() && EntryOk(e) && offset + Total(e) <= size && e.lsn == LsnOf(activeId, offset)
      modifies this
      ensures Valid() && durable == old(durable) && safe == old(safe) && activeId == old(activeId)
        && old(activeId in segs)
      ensures Appended(crc, old(segs), old(parts), old(offset), segs, parts, offset, e,
                       NextClean(crc, old(segs[activeId]), old(offset), Total(e), size))
    {
      hide Laid, Flat, Appended, NextClean, Covered, FrameBytes, LastLsn, EntryOk, Blit, Plus;
      AppendedHere(crc, segs, size, parts, offset, e);
      PlusFacts(parts, e);
      CoveredLast(Flat(parts), e, durable, safe, safe);
      LsnGrows(activeId, offset, offset + Total(e));
      WriteFrame(e);
      parts := Plus(parts, e);
    }

    method AppendNext(e: Entry, header: seq<byte>)
      requires Valid() && EntryOk(e) && |header| == SEGMENT_HEADER
        && SEGMENT_HEADER + Total(e) <= size < offset + Total(e)
      requires e.lsn == LsnOf(activeId + 1, SEGMENT_HEADER)
      modifies this
      ensures Valid() && durable == old(durable) && safe == |old(Flat(parts))| && activeId == old(activeId) + 1
        && old(activeId in segs)
      ensures Appended(crc, old(segs), old(parts), old(offset), segs, parts, offset, e,
                       NextClean(crc, old(segs[activeId]), old(offset), Total(e), size))
    {
      hide Laid, Flat, Appended, NextClean, Covered, FrameBytes, LastLsn, EntryOk, Blit, Plus;
      AppendedRotated(crc, segs, size, parts, offset, header, e);
      LaidBound(crc, segs, size, parts, offset);
      PlusFacts(parts + [[]], e);
      FlatEmpty(parts);
      LsnParts(activeId, offset, activeId + 1, SEGMENT_HEADER);
      LsnGrows(activeId + 1, SEGMENT_HEADER, SEGMENT_HEADER + Total(e));
      CoveredLast(Flat(parts), e, durable, safe, |Flat(parts)|);
      Rotate(header);
      hide NewSegment;
      WriteFrame(e);
      parts, safe := Plus(parts + [[]], e), |Flat(parts)|;
    }

    /** Start a new segment; the one left behind has been synced. */
    method Rotate(header: seq<byte>)
      requires |header| == SEGMENT_HEADER <= size
      modifies this`segs, this`activeId, this`offset
      ensures activeId == old(activeId) + 1 && offset == SEGMENT_HEADER
        && segs == old(segs)[activeId := NewSegment(header, size)]
    {
      activeId := activeId + 1;
      segs := segs[activeId := NewSegment(header, size)];
      offset := SEGMENT_HEADER;
    }

    method WriteFrame(e: Entry)
      requires activeId in segs && offset + Total(e) <= |segs[activeId]|
      modifies this`segs, this`offset, this`lastLsn
      ensures segs == Write(old(segs), activeId, old(offset), FrameBytes(crc, e)) && offset == old(offset) + Total(e)
        && lastLsn == e.lsn
    {
      segs := segs[activeId := Blit(segs[activeId], offset, FrameBytes(crc, e))];
      offset := offset + Total(e);
      lastLsn := e.lsn;
    }
  }

  /** Every record up to the durable LSN is among the first `safe`, which are on disk. */
  ghost predicate Covered(es: seq<Entry>, durable: nat, safe: nat) {
    forall i :: 0 <= i < |es| && es[i].lsn <= durable ==> i < safe
  }
}
