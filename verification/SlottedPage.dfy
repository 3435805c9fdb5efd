/**
 * The slotted page: an 8192-byte buffer with a 32-byte header, a slot array growing up from it and
 * record bytes growing down from the end. `Page` is what a page means; the buffer refines it.
 */
module SlottedPage {
  import opened Bytes
  import opened Options

  const PAGE_SIZE: nat := 8192
  const SLOT_ARRAY_START: nat := 32
  const SLOT_SIZE: nat := 4
  const OFF_PAGE_TYPE: nat := 10
  const OFF_FREE_START: nat := 14
  const OFF_FREE_END: nat := 16
  const OFF_SLOT_COUNT: nat := 18
  const MAX_RECORD_LEN: nat := 8156

  // ----- The abstract page -----

  /** Slot contents (empty slots are `None`) and the low end of the record area. */
  datatype Page = Page(slots: seq<Option<seq<byte>>>, freeEnd: nat)

  const EmptyPage: Page := Page([], PAGE_SIZE)

  function FirstEmpty(slots: seq<Option<seq<byte>>>): (i: nat)
    ensures i <= |slots|
    ensures i < |slots| ==> slots[i].None?
    ensures forall j :: 0 <= j < i ==> slots[j].Some?
  {
    if slots == [] || slots[0].None? then 0 else 1 + FirstEmpty(slots[1..])
  }

  lemma FirstEmptyIs(slots: seq<Option<seq<byte>>>, i: nat)
    requires i <= |slots| && (i < |slots| ==> slots[i].None?) && forall j :: 0 <= j < i ==> slots[j].Some?
    ensures FirstEmpty(slots) == i
  {
  }

  predicate Fits(p: Page, n: nat) {
    var need := if FirstEmpty(p.slots) < |p.slots| then n else n + SLOT_SIZE;
    n <= MAX_RECORD_LEN && SLOT_ARRAY_START + SLOT_SIZE * |p.slots| + need <= p.freeEnd
  }

  /** Place a record in the first empty slot, or in a new one, if it fits. */
  function PageInsert(p: Page, rec: seq<byte>): Option<(Page, nat)> {
    if !Fits(p, |rec|) then None
    else
      var i := FirstEmpty(p.slots);
      var slots := if i < |p.slots| then p.slots[i := Some(rec)] else p.slots + [Some(rec)];
      Some((Page(slots, p.freeEnd - |rec|), i))
  }

  function PageGet(p: Page, i: nat): Option<seq<byte>> {
    if i < |p.slots| then p.slots[i] else None
  }

  /** Replace the bytes of an occupied slot by as many others. */
  function PageEdit(p: Page, i: nat, data: seq<byte>): Option<Page> {
    if PageGet(p, i).Some? && |PageGet(p, i).value| == |data|
    then Some(p.(slots := p.slots[i := Some(data)])) else None
  }

  function PageDelete(p: Page, i: nat): Page {
    if PageGet(p, i).Some? then p.(slots := p.slots[i := None]) else p
  }

  function LiveBytes(slots: seq<Option<seq<byte>>>): nat {
    if slots == [] then 0
    else LiveBytes(slots[..|slots| - 1]) + match slots[|slots| - 1] case None => 0 case Some(r) => |r|
  }

  function PageCompact(p: Page): Page
    requires LiveBytes(p.slots) <= PAGE_SIZE
  {
    p.(freeEnd := PAGE_SIZE - LiveBytes(p.slots))
  }

  // ----- The buffer -----

  type Buffer = b: seq<byte> | |b| == PAGE_SIZE witness seq(PAGE_SIZE, _ => 0)

  function SlotCount(b: Buffer): nat { U16(b, OFF_SLOT_COUNT) }
  function FreeStart(b: Buffer): nat { U16(b, OFF_FREE_START) }
  function FreeEnd(b: Buffer): nat { U16(b, OFF_FREE_END) }

  /** The bytes before the slot bookkeeping: LSN, checksum and page type. */
  predicate SameTop(b: Buffer, r: Buffer) {
    forall k :: 0 <= k < OFF_FREE_START ==> r[k] == b[k]
  }

  predicate InArray(i: nat) { SLOT_ARRAY_START + SLOT_SIZE * (i + 1) <= PAGE_SIZE }

  /** A slot entry as stored: record offset (0 means empty) and length field. */
  datatype Entry = Entry(off: nat, field: nat)

  function Len(e: Entry): nat { e.field % 0x8000 }

  predicate Live(e: Entry) { e.off != 0 }

  function EntryAt(b: Buffer, i: nat): (e: Entry)
    requires InArray(i)
  {
    Entry(U16(b, SLOT_ARRAY_START + SLOT_SIZE * i), U16(b, SLOT_ARRAY_START + SLOT_SIZE * i + 2))
  }

  function Entries(b: Buffer): (es: seq<Entry>)
    ensures |es| == SlotCount(b)
  {
    seq(SlotCount(b), i requires 0 <= i < SlotCount(b) => if InArray(i) then EntryAt(b, i) else Entry(0, 0))
  }

  /** `record_at`, with the bounds checks of the source. */
  function RecordOf(b: Buffer, e: Entry): Option<seq<byte>> {
    if Live(e) && e.off + Len(e) <= PAGE_SIZE then Some(b[e.off..e.off + Len(e)]) else None
  }

  function SlotsOf(b: Buffer, es: seq<Entry>): (s: seq<Option<seq<byte>>>)
    ensures |s| == |es|
  {
    seq(|es|, i requires 0 <= i < |es| => RecordOf(b, es[i]))
  }

  function View(b: Buffer): Page {
    Page(SlotsOf(b, Entries(b)), FreeEnd(b))
  }

  predicate Apart(d: Entry, e: Entry) {
    d.off + Len(d) <= e.off || e.off + Len(e) <= d.off
  }

  /** Live records lie in the record area, apart from each other. */
  ghost predicate LayoutOk(es: seq<Entry>, freeEnd: nat) {
    && (forall i :: 0 <= i < |es| && Live(es[i]) ==> freeEnd <= es[i].off && es[i].off + Len(es[i]) <= PAGE_SIZE)
    && (forall i, j :: 0 <= i < |es| && 0 <= j < |es| && i != j && Live(es[i]) && Live(es[j]) ==> Apart(es[i], es[j]))
  }

  predicate HeaderOk(b: Buffer) {
    FreeStart(b) == SLOT_ARRAY_START + SLOT_SIZE * SlotCount(b) && FreeStart(b) <= FreeEnd(b) <= PAGE_SIZE
  }

  /** The slot array and the record area do not meet, and live records fit in the latter even packed. */
  ghost predicate Valid(b: Buffer) {
    && HeaderOk(b)
    && LayoutOk(Entries(b), FreeEnd(b))
    && LiveBytes(View(b).slots) <= PAGE_SIZE - FreeEnd(b)
  }

  // ----- Sums over slots -----

  lemma {:induction false} LiveBytesSet(slots: seq<Option<seq<byte>>>, i: nat, v: Option<seq<byte>>)
    requires i < |slots|
    ensures LiveBytes(slots[i := v]) == LiveBytes(slots) - Size(slots[i]) + Size(v)
  {
    var k := |slots| - 1;
    if i == k {
      assert slots[i := v][..k] == slots[..k];
    } else {
      LiveBytesSet(slots[..k], i, v);
      assert slots[i := v][..k] == slots[..k][i := v];
    }
  }

  function Size(v: Option<seq<byte>>): nat {
    match v case None => 0 case Some(r) => |r|
  }

  lemma LiveBytesAppend(slots: seq<Option<seq<byte>>>, v: Option<seq<byte>>)
    ensures LiveBytes(slots + [v]) == LiveBytes(slots) + Size(v)
  {
    assert (slots + [v])[..|slots|] == slots;
  }

  // ----- Frames -----

  predicate SameHeader(b: Buffer, r: Buffer) {
    SlotCount(r) == SlotCount(b) && FreeStart(r) == FreeStart(b) && FreeEnd(r) == FreeEnd(b)
  }

  lemma HeaderFrame(b: Buffer, r: Buffer)
    requires forall k :: 0 <= k < SLOT_ARRAY_START ==> r[k] == b[k]
    ensures SameHeader(b, r)
  {
  }

  /** Where the bytes of a slot entry are untouched, so is the entry. */
  lemma EntryFrame(b: Buffer, r: Buffer, j: nat)
    requires InArray(j)
    requires forall k :: SLOT_ARRAY_START + SLOT_SIZE * j <= k < SLOT_ARRAY_START + SLOT_SIZE * (j + 1) ==> r[k] == b[k]
    ensures EntryAt(r, j) == EntryAt(b, j)
  {
  }

  /** Where the bytes of a record are untouched, so is the record. */
  lemma RecordFrame(b: Buffer, r: Buffer, e: Entry)
    requires Live(e) && e.off + Len(e) <= PAGE_SIZE
    requires forall k :: e.off <= k < e.off + Len(e) ==> r[k] == b[k]
    ensures RecordOf(r, e) == RecordOf(b, e)
  {
    assert r[e.off..e.off + Len(e)] == b[e.off..e.off + Len(e)];
  }

  /** One slot entry changed, the others kept. */
  lemma EntriesAfterSet(b: Buffer, r: Buffer, i: nat, e: Entry)
    requires FreeStart(b) == SLOT_ARRAY_START + SLOT_SIZE * SlotCount(b) && FreeStart(b) <= PAGE_SIZE
    requires i < SlotCount(b) && SlotCount(r) == SlotCount(b) && EntryAt(r, i) == e
    requires forall k :: SLOT_ARRAY_START <= k < FreeStart(b) ==>
      SLOT_ARRAY_START + SLOT_SIZE * i <= k < SLOT_ARRAY_START + SLOT_SIZE * (i + 1) || r[k] == b[k]
    ensures Entries(r) == Entries(b)[i := e]
  {
    forall j: nat | j < SlotCount(b) ensures Entries(r)[j] == Entries(b)[i := e][j] {
      if j != i { EntryFrame(b, r, j); }
    }
  }

  lemma EntriesAfterGrow(b: Buffer, r: Buffer, e: Entry)
    requires FreeStart(b) == SLOT_ARRAY_START + SLOT_SIZE * SlotCount(b)
    requires InArray(SlotCount(b)) && SlotCount(r) == SlotCount(b) + 1 && EntryAt(r, SlotCount(b)) == e
    requires forall k :: SLOT_ARRAY_START <= k < FreeStart(b) ==> r[k] == b[k]
    ensures Entries(r) == Entries(b) + [e]
  {
    forall j: nat | j < SlotCount(b) ensures Entries(r)[j] == Entries(b)[j] {
      EntryFrame(b, r, j);
    }
  }

  // ----- Insert -----

  predicate RoomAt(b: Buffer, i: nat, n: nat) {
    && i <= SlotCount(b) && n <= MAX_RECORD_LEN
    && SLOT_ARRAY_START + SLOT_SIZE * (if i < SlotCount(b) then SlotCount(b) else SlotCount(b) + 1) + n <= FreeEnd(b)
  }

  /** What an insert into slot `i` leaves: one new record just below the others, nothing else moved. */
  ghost predicate Inserted(b: Buffer, i: nat, rec: seq<byte>, r: Buffer)
    requires FreeEnd(b) <= PAGE_SIZE
  {
    && HeaderOk(r)
    && FreeEnd(r) + |rec| == FreeEnd(b) && |rec| <= MAX_RECORD_LEN
    && (var e := Entry(FreeEnd(r), |rec|);
        Entries(r) == if i < SlotCount(b) then Entries(b)[i := e] else Entries(b) + [e])
    && (forall k :: FreeEnd(b) <= k < PAGE_SIZE ==> r[k] == b[k])
    && r[FreeEnd(r)..FreeEnd(b)] == rec
  }

  /** The four writes of an insert, each known only by what it changes. */
  lemma InsertChain(b: Buffer, i: nat, rec: seq<byte>, b1: Buffer, b2: Buffer, b3: Buffer, r: Buffer)
    requires HeaderOk(b) && RoomAt(b, i, |rec|)
    requires SameHeader(b, b1)
    requires forall k :: 0 <= k < PAGE_SIZE ==>
      b1[k] == if FreeEnd(b) - |rec| <= k < FreeEnd(b) then rec[k - (FreeEnd(b) - |rec|)] else b[k]
    requires SlotCount(b2) == (if i < SlotCount(b) then SlotCount(b) else i + 1)
    requires FreeStart(b2) == SLOT_ARRAY_START + SLOT_SIZE * SlotCount(b2)
    requires forall k :: SLOT_ARRAY_START <= k < PAGE_SIZE ==> b2[k] == b1[k]
    requires SameHeader(b2, b3) && EntryAt(b3, i) == Entry(FreeEnd(b) - |rec|, |rec|)
    requires forall k :: SLOT_ARRAY_START <= k < PAGE_SIZE ==>
      SLOT_ARRAY_START + SLOT_SIZE * i <= k < SLOT_ARRAY_START + SLOT_SIZE * (i + 1) || b3[k] == b2[k]
    requires SlotCount(r) == SlotCount(b3) && FreeStart(r) == FreeStart(b3) && FreeEnd(r) == FreeEnd(b) - |rec|
    requires forall k :: SLOT_ARRAY_START <= k < PAGE_SIZE ==> r[k] == b3[k]
    ensures Inserted(b, i, rec, r)
  {
    EntryFrame(b3, r, i);
    if i < SlotCount(b) {
      EntriesAfterSet(b, r, i, Entry(FreeEnd(b) - |rec|, |rec|));
    } else {
      EntriesAfterGrow(b, r, Entry(FreeEnd(b) - |rec|, |rec|));
    }
  }

  /** A new record below all others keeps the layout. */
  lemma LayoutInsert(es: seq<Entry>, freeEnd: nat, i: nat, e: Entry)
    requires LayoutOk(es, freeEnd) && e.off + Len(e) == freeEnd <= PAGE_SIZE
    requires i <= |es| && (i < |es| ==> !Live(es[i]))
    ensures LayoutOk(if i < |es| then es[i := e] else es + [e], e.off)
  {
  }

  /** Records whose bytes lie in an untouched area read the same. */
  lemma SlotsFrame(b: Buffer, r: Buffer, es: seq<Entry>, freeEnd: nat)
    requires LayoutOk(es, freeEnd)
    requires forall k :: freeEnd <= k < PAGE_SIZE ==> r[k] == b[k]
    ensures SlotsOf(r, es) == SlotsOf(b, es)
  {
    forall j: nat | j < |es| ensures RecordOf(r, es[j]) == RecordOf(b, es[j]) {
      if Live(es[j]) { RecordFrame(b, r, es[j]); }
    }
  }

  lemma SlotsSet(r: Buffer, es: seq<Entry>, i: nat, e: Entry)
    requires i <= |es|
    ensures SlotsOf(r, if i < |es| then es[i := e] else es + [e]) ==
      if i < |es| then SlotsOf(r, es)[i := RecordOf(r, e)] else SlotsOf(r, es) + [RecordOf(r, e)]
  {
  }

  lemma InsertedSlots(b: Buffer, i: nat, rec: seq<byte>, r: Buffer)
    requires HeaderOk(b) && LayoutOk(Entries(b), FreeEnd(b)) && i <= SlotCount(b) && Inserted(b, i, rec, r)
    ensures View(r).slots == if i < SlotCount(b) then View(b).slots[i := Some(rec)] else View(b).slots + [Some(rec)]
  {
    hide LayoutOk, SlotsOf, U16, Entries;
    var e := Entry(FreeEnd(r), |rec|);
    SlotsFrame(b, r, Entries(b), FreeEnd(b));
    SlotsSet(r, Entries(b), i, e);
  }

  lemma InsertedValid(b: Buffer, i: nat, rec: seq<byte>, r: Buffer)
    requires Valid(b) && i <= SlotCount(b) && Inserted(b, i, rec, r)
    requires i < SlotCount(b) ==> View(b).slots[i].None?
    ensures Valid(r)
  {
    if i < SlotCount(b) { NoneIsDead(b, i); }
    LenIs(FreeEnd(r), |rec|);
    hide LayoutOk, SlotsOf, LiveBytes, U16, Entries, Len;
    InsertedSlots(b, i, rec, r);
    InsertedBytes(View(b).slots, i, rec);
    LayoutInsert(Entries(b), FreeEnd(b), i, Entry(FreeEnd(r), |rec|));
  }

  lemma LenIs(off: nat, n: nat)
    requires n <= MAX_RECORD_LEN
    ensures Len(Entry(off, n)) == n
  {
  }

  lemma InsertedBytes(slots: seq<Option<seq<byte>>>, i: nat, rec: seq<byte>)
    requires i <= |slots| && (i < |slots| ==> slots[i].None?)
    ensures LiveBytes(if i < |slots| then slots[i := Some(rec)] else slots + [Some(rec)]) == LiveBytes(slots) + |rec|
  {
    if i < |slots| {
      LiveBytesSet(slots, i, Some(rec));
    } else {
      LiveBytesAppend(slots, Some(rec));
    }
  }

  lemma NoneIsDead(b: Buffer, i: nat)
    requires LayoutOk(Entries(b), FreeEnd(b)) && i < SlotCount(b) && View(b).slots[i].None?
    ensures !Live(Entries(b)[i])
  {
  }

  lemma RoomIffFits(b: Buffer, n: nat)
    requires HeaderOk(b)
    ensures RoomAt(b, FirstEmpty(View(b).slots), n) <==> Fits(View(b), n)
  {
  }

  /** A byte-level insert is the abstract insert, and keeps the page valid. */
  lemma InsertRefines(b: Buffer, i: nat, rec: seq<byte>, r: Buffer)
    requires Valid(b) && Fits(View(b), |rec|) && i == FirstEmpty(View(b).slots) && Inserted(b, i, rec, r)
    ensures Valid(r) && PageInsert(View(b), rec) == Some((View(r), i))
  {
    hide LayoutOk, LiveBytes, U16, FirstEmpty;
    InsertedSlots(b, i, rec, r);
    InsertedValid(b, i, rec, r);
  }

  // ----- Edit and delete -----

  /** Rewriting one record's bytes changes that record alone, because records are apart. */
  lemma EditSlots(b: Buffer, r: Buffer, i: nat, data: seq<byte>)
    requires HeaderOk(b) && LayoutOk(Entries(b), FreeEnd(b)) && i < SlotCount(b)
    requires Live(Entries(b)[i]) && |data| == Len(Entries(b)[i])
    requires Entries(r) == Entries(b)
    requires forall k :: FreeEnd(b) <= k < PAGE_SIZE ==>
      r[k] == if Entries(b)[i].off <= k < Entries(b)[i].off + |data| then data[k - Entries(b)[i].off] else b[k]
    ensures View(r).slots == View(b).slots[i := Some(data)]
  {
    var es := Entries(b);
    assert r[es[i].off..es[i].off + |data|] == data;
    forall j: nat | j < |es| && j != i ensures RecordOf(r, es[j]) == RecordOf(b, es[j]) {
      if Live(es[j]) { RecordFrame(b, r, es[j]); }
    }
  }

  lemma EditValid(b: Buffer, r: Buffer, i: nat, data: seq<byte>)
    requires Valid(b) && i < SlotCount(b) && View(b).slots[i].Some? && |View(b).slots[i].value| == |data|
    requires SameHeader(b, r) && Entries(r) == Entries(b) && View(r).slots == View(b).slots[i := Some(data)]
    ensures Valid(r)
  {
    LiveBytesSet(View(b).slots, i, Some(data));
  }

  lemma DeleteValid(b: Buffer, r: Buffer, i: nat)
    requires Valid(b) && i < SlotCount(b) && Live(Entries(b)[i])
    requires SameHeader(b, r) && Entries(r) == Entries(b)[i := Entry(0, 0)]
    requires forall k :: FreeEnd(b) <= k < PAGE_SIZE ==> r[k] == b[k]
    ensures Valid(r) && View(r) == PageDelete(View(b), i)
  {
    var es := Entries(b)[i := Entry(0, 0)];
    assert LayoutOk(es, FreeEnd(b));
    SlotsFrame(b, r, es, FreeEnd(b));
    SlotsSet(b, Entries(b), i, Entry(0, 0));
    LiveBytesSet(View(b).slots, i, None);
  }

  // ----- Compaction -----

  lemma {:induction false} LiveBytesPrefix(slots: seq<Option<seq<byte>>>, n: nat)
    requires n <= |slots|
    ensures LiveBytes(slots[..n]) <= LiveBytes(slots)
  {
    if n < |slots| {
      LiveBytesPrefix(slots[..|slots| - 1], n);
      assert slots[..|slots| - 1][..n] == slots[..n];
    } else {
      assert slots[..n] == slots;
    }
  }

  /** What the copying loop has done once the slots below `cut` are packed down to `end`. */
  ghost predicate Packed(b0: Buffer, b: Buffer, cut: nat, end: nat) {
    && SameHeader(b0, b) && cut <= SlotCount(b0) && end <= PAGE_SIZE
    && LayoutOk(Entries(b)[..cut], end)
    && SlotsOf(b, Entries(b)[..cut]) == View(b0).slots[..cut]
    && Entries(b)[cut..] == Entries(b0)[cut..]
    && end == PAGE_SIZE - LiveBytes(View(b0).slots[..cut])
  }

  /** Empty slots need no copying. */
  lemma {:induction false} PackedSkip(b0: Buffer, b: Buffer, cut: nat, end: nat, cut': nat)
    requires Packed(b0, b, cut, end) && cut <= cut' <= SlotCount(b0)
    requires forall j :: cut <= j < cut' ==> !Live(Entries(b0)[j])
    ensures Packed(b0, b, cut', end)
    decreases cut' - cut
  {
    if cut < cut' {
      PackedSkipOne(b0, b, cut, end);
      PackedSkip(b0, b, cut + 1, end, cut');
    }
  }

  lemma LayoutDead(es: seq<Entry>, end: nat, e: Entry)
    requires LayoutOk(es, end) && !Live(e)
    ensures LayoutOk(es + [e], end)
  {
  }

  lemma PackedSkipOne(b0: Buffer, b: Buffer, cut: nat, end: nat)
    requires Packed(b0, b, cut, end) && cut < SlotCount(b0) && !Live(Entries(b0)[cut])
    ensures Packed(b0, b, cut + 1, end)
  {
    var es, e := Entries(b), Entries(b0)[cut];
    var slots := View(b0).slots;
    assert es[cut] == es[cut..][0] == Entries(b0)[cut..][0] == e;
    assert es[..cut + 1] == es[..cut] + [e];
    assert es[cut + 1..] == es[cut..][1..] == Entries(b0)[cut..][1..];
    LayoutDead(es[..cut], end, e);
    assert SlotsOf(b, es[..cut] + [e]) == SlotsOf(b, es[..cut]) + [RecordOf(b, e)];
    assert slots[cut] == RecordOf(b0, e) == None;
    assert slots[..cut + 1] == slots[..cut] + [None];
    LiveBytesAppend(slots[..cut], None);
  }

  lemma SetSplit(es: seq<Entry>, es0: seq<Entry>, cut: nat, e: Entry)
    requires cut < |es| == |es0| && es[cut..] == es0[cut..]
    ensures es[cut := e][..cut + 1] == es[..cut] + [e] && es[cut := e][cut + 1..] == es0[cut + 1..]
  {
    assert es[cut..][1..] == es[cut + 1..] && es0[cut..][1..] == es0[cut + 1..];
  }

  /** Copying the record of slot `cut` just below the ones already packed. */
  lemma PackedStep(b0: Buffer, b: Buffer, cut: nat, end: nat, rec: seq<byte>, r: Buffer)
    requires Packed(b0, b, cut, end) && cut < SlotCount(b0) && View(b0).slots[cut] == Some(rec)
    requires |rec| <= end && Len(Entries(b0)[cut]) == |rec| && Live(Entries(b0)[cut]) && SameHeader(b, r)
    requires Entries(r) == Entries(b)[cut := Entry(end - |rec|, Entries(b0)[cut].field)]
    requires end - |rec| > 0
    requires forall k :: end <= k < PAGE_SIZE ==> r[k] == b[k]
    requires r[end - |rec|..end] == rec
    ensures Packed(b0, r, cut + 1, end - |rec|)
  {
    var es, e := Entries(b), Entry(end - |rec|, Entries(b0)[cut].field);
    var slots := View(b0).slots;
    assert Len(e) == |rec| && RecordOf(r, e) == Some(rec);
    hide LayoutOk, SlotsOf, LiveBytes, U16, Entries, Len, RecordOf;
    SetSplit(es, Entries(b0), cut, e);
    LayoutInsert(es[..cut], end, cut, e);
    SlotsFrame(b, r, es[..cut], end);
    SlotsSet(r, es[..cut], cut, e);
    assert slots[..cut + 1] == slots[..cut] + [Some(rec)];
    LiveBytesAppend(slots[..cut], Some(rec));
  }

  // ----- The page operations, in place -----

  /** A record waiting to be copied: its slot, its length field and its bytes. */
  datatype LiveRecord = LiveRecord(slot: nat, field: nat, bytes: seq<byte>)

  /** The two writes that copy one record, each known only by what it changes. */
  lemma RepackStep(b0: Buffer, b: Buffer, b1: Buffer, r: Buffer, rec: LiveRecord, end: nat)
    requires rec.slot < SlotCount(b0) && Packed(b0, b, rec.slot, end) && HeaderOk(b0)
    requires View(b0).slots[rec.slot] == Some(rec.bytes) && rec.field == Entries(b0)[rec.slot].field
    requires Live(Entries(b0)[rec.slot]) && Len(Entries(b0)[rec.slot]) == |rec.bytes|
      && FreeEnd(b0) + |rec.bytes| <= end
    requires forall k :: 0 <= k < PAGE_SIZE ==>
      b1[k] == if end - |rec.bytes| <= k < end then rec.bytes[k - (end - |rec.bytes|)] else b[k]
    requires SameHeader(b1, r) && EntryAt(r, rec.slot) == Entry(end - |rec.bytes|, rec.field)
    requires forall k :: 0 <= k < PAGE_SIZE ==>
      SLOT_ARRAY_START + SLOT_SIZE * rec.slot <= k < SLOT_ARRAY_START + SLOT_SIZE * (rec.slot + 1) || r[k] == b1[k]
    ensures Packed(b0, r, rec.slot + 1, end - |rec.bytes|) && SameTop(b, r)
  {
    HeaderFrame(b, b1);
    assert SameHeader(b0, b) && SameHeader(b, r) && end <= PAGE_SIZE;
    hide Packed, LayoutOk, LiveBytes, SlotsOf, U16, Entries, Len;
    EntriesAfterSet(b, r, rec.slot, Entry(end - |rec.bytes|, rec.field));
    assert r[end - |rec.bytes|..end] == rec.bytes;
    PackedStep(b0, b, rec.slot, end, rec.bytes, r);
  }

  /** `live` lists the occupied slots below `n`, in order, with their records. */
  ghost predicate Listed(b: Buffer, n: nat, live: seq<LiveRecord>)
    requires n <= SlotCount(b)
  {
    && (forall k :: 0 <= k < |live| ==>
          && live[k].slot < n && Live(Entries(b)[live[k].slot])
          && live[k].field == Entries(b)[live[k].slot].field
          && RecordOf(b, Entries(b)[live[k].slot]) == Some(live[k].bytes))
    && (forall k :: 0 <= k < |live| - 1 ==> live[k].slot < live[k + 1].slot)
    && (forall k, j :: 0 <= k <= |live| && Below(live, k) <= j < Above(live, k, n) ==> !Live(Entries(b)[j]))
  }

  /** The slots strictly between the record before `live[k]` and `live[k]` itself. */
  function Below(live: seq<LiveRecord>, k: nat): nat
    requires k <= |live|
  {
    if k == 0 then 0 else live[k - 1].slot + 1
  }

  function Above(live: seq<LiveRecord>, k: nat, n: nat): nat
    requires k <= |live|
  {
    if k < |live| then live[k].slot else n
  }

  lemma ListedGrow(b: Buffer, n: nat, live: seq<LiveRecord>, rec: LiveRecord)
    requires n < SlotCount(b) && Listed(b, n, live) && Live(Entries(b)[n])
    requires rec.slot == n && rec.field == Entries(b)[n].field && RecordOf(b, Entries(b)[n]) == Some(rec.bytes)
    ensures Listed(b, n + 1, live + [rec])
  {
    var more := live + [rec];
    forall k, j | 0 <= k <= |more| && Below(more, k) <= j < Above(more, k, n + 1) ensures !Live(Entries(b)[j]) {
      if k <= |live| {
        assert Below(more, k) == Below(live, k) && Above(more, k, n + 1) == Above(live, k, n);
      }
    }
  }

  lemma ListedSkip(b: Buffer, n: nat, live: seq<LiveRecord>)
    requires n < SlotCount(b) && Listed(b, n, live) && !Live(Entries(b)[n])
    ensures Listed(b, n + 1, live)
  {
    forall k, j | 0 <= k <= |live| && Below(live, k) <= j < Above(live, k, n + 1) ensures !Live(Entries(b)[j]) {
      if j < n { assert Below(live, k) <= j < Above(live, k, n); }
    }
  }

  class SlottedPage {
    const buf: array<byte>

    ghost predicate Ok()
      reads this, buf
    {
      buf.Length == PAGE_SIZE
    }

    ghost function Buf(): Buffer
      requires Ok()
      reads this, buf
    {
      buf[..]
    }

    /** Wrap an existing page buffer. */
    constructor (b: array<byte>)
      requires b.Length == PAGE_SIZE
      ensures buf == b && Ok()
    {
      buf := b;
    }

    method Write16(o: nat, v: nat)
      requires Ok() && o + 2 <= PAGE_SIZE && v < 0x1_0000
      modifies buf
      ensures Ok() && U16(Buf(), o) == v
      ensures forall k :: 0 <= k < PAGE_SIZE && k != o && k != o + 1 ==> Buf()[k] == old(Buf())[k]
    {
      buf[o], buf[o + 1] := v % 256, v / 256;
    }

    method WriteBytes(off: nat, data: seq<byte>)
      requires Ok() && off + |data| <= PAGE_SIZE
      modifies buf
      ensures Ok()
      ensures forall k :: 0 <= k < PAGE_SIZE ==>
        Buf()[k] == if off <= k < off + |data| then data[k - off] else old(Buf())[k]
    {
      forall k | 0 <= k < |data| {
        buf[off + k] := data[k];
      }
    }

    method Read16(o: nat) returns (v: nat)
      requires Ok() && o + 2 <= PAGE_SIZE
      ensures v == U16(Buf(), o)
    {
      v := (buf[o] as int) + 256 * (buf[o + 1] as int);
    }

    method ReadEntry(i: nat) returns (e: Entry)
      requires Ok() && InArray(i)
      ensures e == EntryAt(Buf(), i)
    {
      var off := Read16(SLOT_ARRAY_START + SLOT_SIZE * i);
      var field := Read16(SLOT_ARRAY_START + SLOT_SIZE * i + 2);
      e := Entry(off, field);
    }

    method SetSlot(i: nat, e: Entry)
      requires Ok() && InArray(i) && e.off < 0x1_0000 && e.field < 0x1_0000
      modifies buf
      ensures Ok() && EntryAt(Buf(), i) == e && SameHeader(old(Buf()), Buf())
      ensures forall k :: 0 <= k < PAGE_SIZE ==>
        SLOT_ARRAY_START + SLOT_SIZE * i <= k < SLOT_ARRAY_START + SLOT_SIZE * (i + 1) || Buf()[k] == old(Buf())[k]
    {
      Write16(SLOT_ARRAY_START + SLOT_SIZE * i, e.off);
      Write16(SLOT_ARRAY_START + SLOT_SIZE * i + 2, e.field);
      HeaderFrame(old(Buf()), Buf());
    }

    method SetFreeEnd(v: nat)
      requires Ok() && v <= PAGE_SIZE
      modifies buf
      ensures Ok() && FreeEnd(Buf()) == v
      ensures SameTop(old(Buf()), Buf())
      ensures SlotCount(Buf()) == old(SlotCount(Buf())) && FreeStart(Buf()) == old(FreeStart(Buf()))
      ensures forall k :: SLOT_ARRAY_START <= k < PAGE_SIZE ==> Buf()[k] == old(Buf())[k]
    {
      Write16(OFF_FREE_END, v);
    }

    method GrowArray(n: nat)
      requires Ok() && SLOT_ARRAY_START + SLOT_SIZE * n <= PAGE_SIZE
      modifies buf
      ensures Ok() && SlotCount(Buf()) == n && FreeStart(Buf()) == SLOT_ARRAY_START + SLOT_SIZE * n
      ensures SameTop(old(Buf()), Buf())
      ensures FreeEnd(Buf()) == old(FreeEnd(Buf()))
      ensures forall k :: SLOT_ARRAY_START <= k < PAGE_SIZE ==> Buf()[k] == old(Buf())[k]
    {
      Write16(OFF_SLOT_COUNT, n);
      Write16(OFF_FREE_START, SLOT_ARRAY_START + SLOT_SIZE * n);
    }

    /** An empty page of the given type. */
    method Init(pageType: byte)
      requires Ok()
      modifies buf
      ensures Ok() && Valid(Buf()) && View(Buf()) == EmptyPage
      ensures forall k :: 0 <= k < OFF_FREE_START ==> Buf()[k] == if k == OFF_PAGE_TYPE then pageType else 0
    {
      forall k | 0 <= k < PAGE_SIZE {
        buf[k] := 0;
      }
      buf[OFF_PAGE_TYPE] := pageType;
      GrowArray(0);
      SetFreeEnd(PAGE_SIZE);
    }

    method Get(i: nat) returns (r: Option<seq<byte>>)
      requires Ok() && Valid(Buf())
      ensures r == PageGet(View(Buf()), i)
    {
      var count := Read16(OFF_SLOT_COUNT);
      if i >= count {
        return None;
      }
      var e := ReadEntry(i);
      assert Entries(Buf())[i] == e;
      if e.off == 0 {
        return None;
      }
      r := Some(buf[e.off..e.off + e.field % 0x8000]);
    }

    /** The first empty slot, or the slot count when there is none. */
    method FindReusable() returns (i: nat)
      requires Ok() && Valid(Buf())
      ensures i == FirstEmpty(View(Buf()).slots)
    {
      var count := Read16(OFF_SLOT_COUNT);
      i := 0;
      while i < count
        invariant i <= count == SlotCount(Buf())
        invariant forall j :: 0 <= j < i ==> View(Buf()).slots[j].Some?
        invariant i < count && Entries(Buf())[i].off == 0 ==> View(Buf()).slots[i].None?
      {
        var e := ReadEntry(i);
        assert Entries(Buf())[i] == e;
        if e.off == 0 {
          break;
        }
        i := i + 1;
      }
      FirstEmptyIs(View(Buf()).slots, i);
    }

    /** The writes of an insert, once slot `i` is chosen. */
    method Place(i: nat, count: nat, freeEnd: nat, rec: seq<byte>)
      requires Ok() && HeaderOk(Buf()) && RoomAt(Buf(), i, |rec|)
      requires count == SlotCount(Buf()) && freeEnd == FreeEnd(Buf())
      modifies buf
      ensures Ok() && Inserted(old(Buf()), i, rec, Buf())
      ensures SameTop(old(Buf()), Buf())
    {
      ghost var b := Buf();
      var newOff := freeEnd - |rec|;
      WriteBytes(newOff, rec);
      ghost var b1 := Buf();
      HeaderFrame(b, b1);
      if i >= count {
        GrowArray(count + 1);
      }
      ghost var b2 := Buf();
      SetSlot(i, Entry(newOff, |rec|));
      ghost var b3 := Buf();
      SetFreeEnd(newOff);
      InsertChain(b, i, rec, b1, b2, b3, Buf());
    }

    method Insert(rec: seq<byte>) returns (slot: Option<nat>)
      requires Ok() && Valid(Buf())
      modifies buf
      ensures Ok() && Valid(Buf())
      ensures match PageInsert(old(View(Buf())), rec)
        case None => slot == None && Buf() == old(Buf())
        case Some((p, i)) => slot == Some(i) && View(Buf()) == p
      ensures SameTop(old(Buf()), Buf())
    {
      if |rec| > MAX_RECORD_LEN {
        return None;
      }
      ghost var b := Buf();
      var count := Read16(OFF_SLOT_COUNT);
      var i := FindReusable();
      var freeStart := Read16(OFF_FREE_START);
      var freeEnd := Read16(OFF_FREE_END);
      var need := if i < count then |rec| else |rec| + SLOT_SIZE;
      RoomIffFits(b, |rec|);
      if freeEnd - freeStart < need {
        return None;
      }
      Place(i, count, freeEnd, rec);
      InsertRefines(b, i, rec, Buf());
      slot := Some(i);
    }

    /** An in-place edit through `get_mut`; the new bytes must be as many as the old. */
    method Edit(i: nat, data: seq<byte>) returns (ok: bool)
      requires Ok() && Valid(Buf())
      modifies buf
      ensures Ok() && Valid(Buf())
      ensures match PageEdit(old(View(Buf())), i, data)
        case None => !ok && Buf() == old(Buf())
        case Some(p) => ok && View(Buf()) == p
      ensures SameTop(old(Buf()), Buf())
    {
      ghost var b := Buf();
      var count := Read16(OFF_SLOT_COUNT);
      if i >= count {
        return false;
      }
      var e := ReadEntry(i);
      assert Entries(b)[i] == e;
      if e.off == 0 || e.field % 0x8000 != |data| {
        return false;
      }
      WriteBytes(e.off, data);
      HeaderFrame(b, Buf());
      EntriesFrame(b, Buf());
      EditSlots(b, Buf(), i, data);
      EditValid(b, Buf(), i, data);
      ok := true;
    }

    method ReadLive(i: nat) returns (rec: Option<LiveRecord>)
      requires Ok() && Valid(Buf()) && i < SlotCount(Buf())
      ensures rec.Some? <==> Live(Entries(Buf())[i])
      ensures rec.Some? ==> rec.value.slot == i && rec.value.field == Entries(Buf())[i].field
                            && RecordOf(Buf(), Entries(Buf())[i]) == Some(rec.value.bytes)
    {
      var e := ReadEntry(i);
      assert Entries(Buf())[i] == e;
      rec := if e.off == 0 then None else Some(LiveRecord(i, e.field, buf[e.off..e.off + e.field % 0x8000]));
    }

    /** The copies `compact` takes before it moves anything. */
    method CollectLive() returns (live: seq<LiveRecord>)
      requires Ok() && Valid(Buf())
      ensures Listed(Buf(), SlotCount(Buf()), live)
    {
      var count := Read16(OFF_SLOT_COUNT);
      ghost var b := Buf();
      live := [];
      assert Listed(b, 0, live);
      hide Listed, LayoutOk, LiveBytes, Entries;
      for i := 0 to count
        invariant b == Buf() && count == SlotCount(b) && Listed(b, i, live)
      {
        var rec := ReadLive(i);
        if rec.None? {
          ListedSkip(b, i, live);
        } else {
          ListedGrow(b, i, live, rec.value);
          live := live + [rec.value];
        }
      }
    }

    /** Write one copied record just below `end`. */
    method Repack(ghost b0: Buffer, rec: LiveRecord, end: nat)
      requires Ok() && rec.slot < SlotCount(b0) && Packed(b0, Buf(), rec.slot, end) && HeaderOk(b0)
      requires View(b0).slots[rec.slot] == Some(rec.bytes) && rec.field == Entries(b0)[rec.slot].field
      requires FreeEnd(b0) + |rec.bytes| <= end && rec.field < 0x1_0000
      modifies buf
      ensures Ok() && Packed(b0, Buf(), rec.slot + 1, end - |rec.bytes|)
      ensures SameTop(old(Buf()), Buf())
    {
      ghost var b := Buf();
      SomeIsLive(b0, rec.slot, rec.bytes);
      var newOff := end - |rec.bytes|;
      hide LayoutOk, LiveBytes, SlotsOf, U16, Entries;
      WriteBytes(newOff, rec.bytes);
      ghost var b1 := Buf();
      SetSlot(rec.slot, Entry(newOff, rec.field));
      RepackStep(b0, b, b1, Buf(), rec, end);
    }

    /** Write the copied records back, one below the other. */
    method RepackAll(ghost b0: Buffer, live: seq<LiveRecord>) returns (end: nat)
      requires Ok() && HeaderOk(b0) && LiveBytes(View(b0).slots) <= PAGE_SIZE - FreeEnd(b0)
      requires Listed(b0, SlotCount(b0), live) && Packed(b0, Buf(), Above(live, 0, SlotCount(b0)), PAGE_SIZE)
      modifies buf
      ensures Ok() && Packed(b0, Buf(), SlotCount(b0), end)
      ensures SameTop(old(Buf()), Buf())
    {
      hide LayoutOk, SlotsOf, LiveBytes, Entries, Listed;
      end := PAGE_SIZE;
      for k := 0 to |live|
        invariant Ok() && Packed(b0, Buf(), Above(live, k, SlotCount(b0)), end) && SameTop(old(Buf()), Buf())
      {
        ListedRecord(b0, live, k);
        PackedRoom(b0, Buf(), live[k].slot, end, live[k].bytes);
        Repack(b0, live[k], end);
        end := end - |live[k].bytes|;
        PackedNext(b0, Buf(), live, k, end);
      }
    }

    /** Reclaim the space of deleted records; slot ids keep their records. */
    method Compact()
      requires Ok() && Valid(Buf())
      modifies buf
      ensures Ok() && Valid(Buf()) && View(Buf()) == PageCompact(old(View(Buf())))
      ensures FreeEnd(Buf()) >= old(FreeEnd(Buf()))
      ensures SameTop(old(Buf()), Buf())
    {
      ghost var b0 := Buf();
      var live := CollectLive();
      PackedFirst(b0, live);
      var end := RepackAll(b0, live);
      ghost var b := Buf();
      SetFreeEnd(end);
      PackedDone(b0, b, end, Buf());
    }

    method Delete(i: nat) returns (ok: bool)
      requires Ok() && Valid(Buf())
      modifies buf
      ensures Ok() && Valid(Buf()) && View(Buf()) == PageDelete(old(View(Buf())), i)
      ensures ok == PageGet(old(View(Buf())), i).Some?
      ensures SameTop(old(Buf()), Buf())
    {
      ghost var b := Buf();
      var count := Read16(OFF_SLOT_COUNT);
      if i >= count {
        return false;
      }
      var e := ReadEntry(i);
      assert Entries(b)[i] == e;
      if e.off == 0 {
        return false;
      }
      SetSlot(i, Entry(0, 0));
      EntriesAfterSet(b, Buf(), i, Entry(0, 0));
      DeleteValid(b, Buf(), i);
      ok := true;
    }
  }

  /** With nothing packed yet, the record area starts at the end of the page. */
  lemma PackedStart(b: Buffer)
    requires HeaderOk(b)
    ensures Packed(b, b, 0, PAGE_SIZE)
  {
  }

  lemma SomeIsLive(b: Buffer, i: nat, rec: seq<byte>)
    requires i < SlotCount(b) && View(b).slots[i] == Some(rec)
    ensures Live(Entries(b)[i]) && Len(Entries(b)[i]) == |rec|
  {
  }

  lemma ListedRecord(b: Buffer, live: seq<LiveRecord>, k: nat)
    requires Listed(b, SlotCount(b), live) && k < |live|
    ensures live[k].slot < SlotCount(b) && View(b).slots[live[k].slot] == Some(live[k].bytes)
    ensures live[k].field == Entries(b)[live[k].slot].field < 0x1_0000
  {
  }

  lemma PackedFirst(b: Buffer, live: seq<LiveRecord>)
    requires HeaderOk(b) && Listed(b, SlotCount(b), live)
    ensures Above(live, 0, SlotCount(b)) <= SlotCount(b)
    ensures Packed(b, b, Above(live, 0, SlotCount(b)), PAGE_SIZE)
  {
    PackedStart(b);
    PackedSkip(b, b, 0, PAGE_SIZE, Above(live, 0, SlotCount(b)));
  }

  lemma PackedNext(b0: Buffer, b: Buffer, live: seq<LiveRecord>, k: nat, end: nat)
    requires Listed(b0, SlotCount(b0), live) && k < |live| && Packed(b0, b, live[k].slot + 1, end)
    ensures Packed(b0, b, Above(live, k + 1, SlotCount(b0)), end)
  {
    assert Below(live, k + 1) == live[k].slot + 1;
    PackedSkip(b0, b, live[k].slot + 1, end, Above(live, k + 1, SlotCount(b0)));
  }

  /** There is always room for the next record above the slot array, whatever was deleted before. */
  lemma PackedRoom(b0: Buffer, b: Buffer, cut: nat, end: nat, rec: seq<byte>)
    requires LiveBytes(View(b0).slots) <= PAGE_SIZE - FreeEnd(b0) && Packed(b0, b, cut, end)
    requires cut < SlotCount(b0) && View(b0).slots[cut] == Some(rec)
    ensures FreeEnd(b0) + |rec| <= end
  {
    var slots := View(b0).slots;
    LiveBytesPrefix(slots, cut + 1);
    assert slots[..cut + 1] == slots[..cut] + [Some(rec)];
    LiveBytesAppend(slots[..cut], Some(rec));
  }

  lemma PackedDone(b0: Buffer, b: Buffer, end: nat, r: Buffer)
    requires Valid(b0) && Packed(b0, b, SlotCount(b0), end)
    requires SlotCount(r) == SlotCount(b) && FreeStart(r) == FreeStart(b) && FreeEnd(r) == end
    requires forall k :: SLOT_ARRAY_START <= k < PAGE_SIZE ==> r[k] == b[k]
    ensures Valid(r) && View(r) == PageCompact(View(b0)) && FreeEnd(b0) <= FreeEnd(r)
  {
    var slots := View(b0).slots;
    assert Entries(b)[..SlotCount(b0)] == Entries(b) && slots[..SlotCount(b0)] == slots;
    LiveBytesPrefix(slots, |slots|);
    EntriesFrame(b, r);
    SlotsFrame(b, r, Entries(b), end);
  }

  /** The slot array is untouched, so are all entries. */
  lemma EntriesFrame(b: Buffer, r: Buffer)
    requires HeaderOk(b) && SlotCount(r) == SlotCount(b)
    requires forall k :: SLOT_ARRAY_START <= k < FreeStart(b) ==> r[k] == b[k]
    ensures Entries(r) == Entries(b)
  {
    forall j: nat | j < SlotCount(b) ensures Entries(r)[j] == Entries(b)[j] {
      EntryFrame(b, r, j);
    }
  }
}
