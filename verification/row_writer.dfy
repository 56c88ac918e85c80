/**
 The record writer. In row mode it appends values to one growing buffer and patches each object's length,
 bitmask and offset table in place when the object is closed; in compact mode it buffers cells and encodes
 them when the file is finished. Whatever the order of the writes, the finished file is the file of the rows.
 */
module RowWriter {
  import opened Bytes
  import opened Bitmask
  import opened CompactSchema
  import opened SchemaHeader
  import opened Preamble
  import opened TailIndex
  import opened TableLayout
  import opened RowObject
  import opened RowFile
  import opened Inference
  import opened CompactFile
  import opened CompactRefines
  import Columns
  import CompactDense
  import CompactRecord

  // ── The open object ───────────────────────────────────────────────────────

  /** A value's slot and its position in the buffer, as a `u32`. */
  datatype SlotOffset = SlotOffset(slot: nat, off: nat)

  datatype Frame = Frame(start: nat, bitmask: Bytes, offsetTable: seq<nat>, lastSlot: int, needsSort: bool,
                         slotOffsets: seq<SlotOffset>, cells: CompactDense.Cells)

  /** The object while it is open: no length, an empty bitmask, a blank table, and the values so far. */
  function Partial(writes: seq<Write>, n: nat): (b: Bytes)
    ensures |b| == ObjectLen(writes, n)
  {
    Le(CompactRecord.MAGIC_OBJ, 4) + Le(0, 4) + EmptyMask(n) + Zeros(ValueStart(n) - 8 - MaskLen(n)) + Values(writes)
  }

  /** `mark_slot`, for a value that starts at position `at` of the buffer. */
  function Marked(f: Frame, slot: nat, at: nat): Frame
    requires slot / 7 < |f.bitmask| && f.start <= at
  {
    Columns.SetBitIsByte(f.bitmask[slot / 7], slot % 7);
    f.(bitmask := f.bitmask[slot / 7 := SetBit(f.bitmask[slot / 7], slot % 7)],
       offsetTable := f.offsetTable + [(at - f.start) % U16],
       lastSlot := slot,
       needsSort := f.needsSort || slot < f.lastSlot,
       slotOffsets := f.slotOffsets + [SlotOffset(slot, at % U32)])
  }

  function RelTable(writes: seq<Write>, n: nat): (t: seq<nat>)
    ensures |t| == |writes|
  {
    seq(|writes|, k requires 0 <= k < |writes| => Rel(writes, n, k) % U16)
  }

  function OffsetsOf(writes: seq<Write>, n: nat, start: nat): (t: seq<SlotOffset>)
    ensures |t| == |writes|
    ensures forall k :: 0 <= k < |t| ==> t[k] == SlotOffset(writes[k].slot, (start + Rel(writes, n, k)) % U32)
  {
    seq(|writes|, k requires 0 <= k < |writes| => SlotOffset(writes[k].slot, (start + Rel(writes, n, k)) % U32))
  }

  ghost predicate Ascending(slots: seq<SlotOffset>)
  {
    forall j, k :: 0 <= j < k < |slots| ==> slots[j].slot < slots[k].slot
  }

  /** The frame of an object that starts at `start` and has been given `writes`. */
  ghost predicate FrameHolds(f: Frame, writes: seq<Write>, n: nat, start: nat)
  {
    && f.start == start && f.bitmask == MaskBytes(Present(writes, n))
    && f.offsetTable == RelTable(writes, n) && f.slotOffsets == OffsetsOf(writes, n, start)
    && (|writes| == 0 ==> f.lastSlot == -1) && (|writes| > 0 ==> f.lastSlot == writes[|writes| - 1].slot)
    && (!f.needsSort ==> Ascending(f.slotOffsets))
  }

  lemma {:induction false} RelSnoc(writes: seq<Write>, w: Write, n: nat, k: nat)
    requires k <= |writes|
    ensures Rel(writes + [w], n, k) == if k < |writes| then Rel(writes, n, k) else ValueStart(n) + |Values(writes)|
  {
    assert (writes + [w])[..k] == writes[..k];
    assert writes[..|writes|] == writes;
  }

  lemma {:induction false} PresentSnoc(writes: seq<Write>, w: Write, n: nat)
    requires w.slot < n
    ensures Present(writes + [w], n) == Present(writes, n)[w.slot := true]
  {
    assert (writes + [w])[..|writes|] == writes;
  }

  lemma {:induction false} ValuesSnoc(writes: seq<Write>, w: Write)
    ensures Values(writes + [w]) == Values(writes) + ValueBytes(w.cell)
  {
    assert (writes + [w])[..|writes|] == writes;
  }

  /** Marking a slot that has not been written keeps the frame in step with the writes. */
  lemma {:induction false} MarkedHolds(f: Frame, writes: seq<Write>, n: nat, start: nat, w: Write)
    requires FrameHolds(f, writes, n, start) && Writable(writes + [w], n)
    ensures w.slot / 7 < |f.bitmask|
    ensures FrameHolds(Marked(f, w.slot, start + ObjectLen(writes, n)), writes + [w], n, start)
  {
    hide MaskBytes, SetBit, Lookup, Values, Ascending, MaskLen, Rel;
    var after := writes + [w];
    assert after[|writes|] == w;
    SetSlot(Present(writes, n), w.slot);
    PresentSnoc(writes, w, n);
    forall k | 0 <= k < |after|
      ensures Rel(after, n, k) == if k < |writes| then Rel(writes, n, k) else ObjectLen(writes, n)
    {
      RelSnoc(writes, w, n, k);
    }
    var marked := Marked(f, w.slot, start + ObjectLen(writes, n));
    assert marked.offsetTable == RelTable(after, n);
    assert marked.slotOffsets == OffsetsOf(after, n, start);
    if !marked.needsSort {
      if |writes| > 0 {
        assert writes[|writes| - 1].slot != w.slot by { assert after[|writes| - 1].slot != after[|writes|].slot; }
      }
      AscendsSnoc(f.slotOffsets, SlotOffset(w.slot, (start + ObjectLen(writes, n)) % U32));
    }
  }

  lemma {:induction false} AscendsSnoc(slots: seq<SlotOffset>, s: SlotOffset)
    requires Ascending(slots) && (|slots| > 0 ==> slots[|slots| - 1].slot < s.slot)
    ensures Ascending(slots + [s])
  {
  }

  lemma {:induction false} PartialSnoc(writes: seq<Write>, w: Write, n: nat)
    ensures Partial(writes + [w], n) == Partial(writes, n) + ValueBytes(w.cell)
  {
    hide Values, ValueBytes, Le, EmptyMask;
    ValuesSnoc(writes, w);
  }

  // ── Closing an object ─────────────────────────────────────────────────────

  /** `buf[p..p + x.len()].copy_from_slice(x)` */
  function Patch(b: Bytes, p: nat, x: Bytes): (r: Bytes)
    requires p + |x| <= |b|
    ensures |r| == |b|
  {
    b[..p] + x + b[p + |x|..]
  }

  lemma {:induction false} PatchMiddle(a: Bytes, x: Bytes, c: Bytes, y: Bytes)
    requires |x| == |y|
    ensures Patch(a + x + c, |a|, y) == a + y + c
  {
  }

  function InsertSlot(s: SlotOffset, sorted: seq<SlotOffset>): (r: seq<SlotOffset>)
    ensures multiset(r) == multiset(sorted) + multiset{s}
  {
    if |sorted| == 0 || s.slot <= sorted[0].slot then [s] + sorted
    else
      assert sorted == [sorted[0]] + sorted[1..];
      [sorted[0]] + InsertSlot(s, sorted[1..])
  }

  /** `sort_unstable_by_key` on the slot. */
  function SortSlots(slots: seq<SlotOffset>): (r: seq<SlotOffset>)
    ensures multiset(r) == multiset(slots)
  {
    if |slots| == 0 then []
    else
      assert slots == [slots[0]] + slots[1..];
      InsertSlot(slots[0], SortSlots(slots[1..]))
  }

  lemma {:induction false} InsertAscends(s: SlotOffset, sorted: seq<SlotOffset>)
    requires Ascending(sorted) && forall x :: x in sorted ==> x.slot != s.slot
    ensures Ascending(InsertSlot(s, sorted))
  {
    hide Ascending;
    if |sorted| > 0 { AscendsTail(sorted); }
    if |sorted| > 0 && s.slot > sorted[0].slot {
      var rest := InsertSlot(s, sorted[1..]);
      InsertAscends(s, sorted[1..]);
      forall x | x in rest
        ensures sorted[0].slot < x.slot
      {
        assert x in multiset(rest);
        assert x == s || x in sorted[1..];
      }
      AscendsCons(sorted[0], rest);
    } else {
      AscendsCons(s, sorted);
    }
  }

  lemma {:induction false} AscendsCons(s: SlotOffset, rest: seq<SlotOffset>)
    requires Ascending(rest) && forall x :: x in rest ==> s.slot < x.slot
    ensures Ascending([s] + rest)
  {
  }

  lemma {:induction false} AscendsTail(sorted: seq<SlotOffset>)
    requires |sorted| > 0 && Ascending(sorted)
    ensures Ascending(sorted[1..]) && sorted == [sorted[0]] + sorted[1..]
    ensures forall x :: x in sorted[1..] ==> sorted[0].slot < x.slot
  {
  }

  lemma {:induction false} SortAscends(slots: seq<SlotOffset>)
    requires forall j, k :: 0 <= j < k < |slots| ==> slots[j].slot != slots[k].slot
    ensures Ascending(SortSlots(slots))
  {
    if |slots| > 0 {
      SortAscends(slots[1..]);
      forall x | x in SortSlots(slots[1..])
        ensures x.slot != slots[0].slot
      {
        assert x in multiset(SortSlots(slots[1..]));
        var j :| 0 <= j < |slots[1..]| && slots[1..][j] == x;
        assert slots[j + 1] == x;
      }
      InsertAscends(slots[0], SortSlots(slots[1..]));
    }
  }

  /** Two ascending lists of the same numbers are the same list. */
  lemma {:induction false} AscendingUnique(a: seq<nat>, b: seq<nat>)
    requires forall j, k :: 0 <= j < k < |a| ==> a[j] < a[k]
    requires forall j, k :: 0 <= j < k < |b| ==> b[j] < b[k]
    requires forall x :: x in a <==> x in b
    ensures a == b
  {
    assert forall k :: 0 <= k < |a| ==> a[k] in a;
    assert forall k :: 0 <= k < |b| ==> b[k] in b;
    if |a| > 0 && |b| > 0 {
      assert a[0] in b && b[0] in a;
      assert a[0] == b[0];
      forall x
        ensures x in a[1..] <==> x in b[1..]
      {
        assert x in a <==> x in b;
        if x in a[1..] { assert x != a[0]; }
        if x in b[1..] { assert x != b[0]; }
      }
      AscendingUnique(a[1..], b[1..]);
    }
  }

  /** The offsets that `end_object` writes to the table, from the values' positions in slot order; the difference wraps. */
  function RelsOf(sorted: seq<SlotOffset>, start: nat): (r: seq<nat>)
    ensures |r| == |sorted|
  {
    seq(|sorted|, k requires 0 <= k < |sorted| => (sorted[k].off - start) % U16)
  }

  function SlotsOf(sorted: seq<SlotOffset>): (s: seq<nat>)
    ensures |s| == |sorted| && forall k :: 0 <= k < |s| ==> s[k] == sorted[k].slot
  {
    seq(|sorted|, k requires 0 <= k < |sorted| => sorted[k].slot)
  }

  /** However the positions are brought into slot order, the slots are the present ones. */
  lemma {:induction false} SortedSlots(writes: seq<Write>, n: nat, start: nat, sorted: seq<SlotOffset>)
    requires Writable(writes, n) && Ascending(sorted) && multiset(sorted) == multiset(OffsetsOf(writes, n, start))
    ensures SlotsOf(sorted) == PresentFrom(Present(writes, n), 0)
  {
    hide Rel;
    var present, offsets := Present(writes, n), OffsetsOf(writes, n, start);
    PresentAscends(present, 0);
    forall x
      ensures x in SlotsOf(sorted) <==> x in PresentFrom(present, 0)
    {
      if x in SlotsOf(sorted) {
        var k :| 0 <= k < |sorted| && SlotsOf(sorted)[k] == x;
        assert sorted[k] in multiset(offsets);
        var j :| 0 <= j < |offsets| && offsets[j] == sorted[k];
        LookupAt(writes, n, j);
      }
      if x in PresentFrom(present, 0) {
        var j := IndexOf(writes, x);
        assert offsets[j] in multiset(sorted);
        var k :| 0 <= k < |sorted| && sorted[k] == offsets[j];
        assert SlotsOf(sorted)[k] == x;
      }
    }
    AscendingUnique(SlotsOf(sorted), PresentFrom(present, 0));
  }

  lemma {:induction false} LeModulo(v: nat)
    ensures Le(v % U16, 2) == Le(v, 2)
  {
    Pow256Values();
    ReadLeTruncates(v, 2);
    LeOfRead(Le(v, 2));
  }

  /** Fields are determined by their values modulo their width. */
  lemma {:induction false} FieldsModulo(a: seq<nat>, b: seq<nat>)
    requires |a| == |b| && forall k :: 0 <= k < |a| ==> a[k] == b[k] % U16
    ensures Fields(a, 2) == Fields(b, 2)
  {
    if |a| > 0 {
      LeModulo(b[0]);
      FieldsModulo(a[1..], b[1..]);
    }
  }

  /** In slot order, the positions give the object's offset table. */
  lemma {:induction false} SortedTable(writes: seq<Write>, n: nat, start: nat, sorted: seq<SlotOffset>)
    requires Writable(writes, n) && Ascending(sorted) && multiset(sorted) == multiset(OffsetsOf(writes, n, start))
    ensures Fields(RelsOf(sorted, start), 2) == TableBytes(writes, n)
  {
    hide Rel, Fields, Lookup, IndexOf, PresentFrom, ObjectLen;
    var slots := PresentFrom(Present(writes, n), 0);
    SortedSlots(writes, n, start, sorted);
    var table := Table(writes, n, slots);
    forall k | 0 <= k < |sorted|
      ensures RelsOf(sorted, start)[k] == table[k] % U16
    {
      assert slots[k] == sorted[k].slot;
      assert sorted[k] in multiset(OffsetsOf(writes, n, start));
      var j :| 0 <= j < |writes| && OffsetsOf(writes, n, start)[j] == sorted[k];
      LookupAt(writes, n, j);
      WrapsAlike(start, Rel(writes, n, j));
    }
    FieldsModulo(RelsOf(sorted, start), table);
  }

  /** Cutting a position to 32 bits does not change the low 16 bits of its distance. */
  lemma {:induction false} WrapsAlike(start: nat, rel: nat)
    ensures ((start + rel) % U32 - start) % U16 == rel % U16
  {
    var at := start + rel;
    var q := at / U32;
    assert at % U32 - start == rel - 0x1_0000 * U16 * q;
    ModShift16(rel, 0x1_0000 * q);
  }

  lemma {:induction false} ModShift16(x: int, q: int)
    ensures (x - U16 * q) % U16 == x % U16
  {
  }

  /** In ascending order the table of relative offsets, kept as the values were written, is the object's. */
  lemma {:induction false} DirectTable(writes: seq<Write>, n: nat, start: nat)
    requires Writable(writes, n) && Ascending(OffsetsOf(writes, n, start))
    ensures Fields(RelTable(writes, n), 2) == TableBytes(writes, n)
  {
    hide Rel, Fields, Lookup, IndexOf, PresentFrom;
    var slots := PresentFrom(Present(writes, n), 0);
    SortedSlots(writes, n, start, OffsetsOf(writes, n, start));
    var table := Table(writes, n, slots);
    forall k | 0 <= k < |writes|
      ensures RelTable(writes, n)[k] == table[k] % U16
    {
      assert slots[k] == writes[k].slot;
      LookupAt(writes, n, k);
    }
    FieldsModulo(RelTable(writes, n), table);
  }

  /** The table loops of `end_object`: each offset in turn, from position `p` of the buffer. */
  method PatchTable(buf: Bytes, p: nat, rels: seq<nat>) returns (r: Bytes)
    requires p + 2 * |rels| <= |buf|
    ensures r == Patch(buf, p, Fields(rels, 2))
  {
    hide Fields, Le;
    r := buf;
    FieldsNone(2);
    assert rels[..0] == [];
    for i := 0 to |rels|
      invariant r == Patch(buf, p, Fields(rels[..i], 2))
    {
      FieldsSnoc(rels[..i], rels[i], 2);
      assert rels[..i + 1] == rels[..i] + [rels[i]];
      r := Patch(r, p + i * 2, Le(rels[i], 2));
    }
    assert rels[..|rels|] == rels;
  }

  /** Four patches in a row, each of its own stretch of the buffer. */
  lemma {:induction false} FourPatches(a: Bytes, len: Bytes, len': Bytes, mask: Bytes, mask': Bytes, table: Bytes,
      table': Bytes, rest: Bytes, rest': Bytes, tail: Bytes)
    requires |len| == |len'| && |mask| == |mask'| && |table| == |table'| && |rest| == |rest'|
    ensures var p1 := |a| + |len|;
            var b1 := Patch(a + len + mask + table + rest + tail, |a|, len');
            var b2 := Patch(b1, p1, mask');
            var b3 := Patch(b2, p1 + |mask|, table');
            Patch(b3, p1 + |mask| + |table|, rest') == a + len' + mask' + table' + rest' + tail
  {
    hide Patch;
    PatchMiddle(a, len, mask + table + rest + tail, len');
    assert a + len + mask + table + rest + tail == a + len + (mask + table + rest + tail);
    PatchMiddle(a + len', mask, table + rest + tail, mask');
    assert a + len' + (mask + table + rest + tail) == a + len' + mask + (table + rest + tail);
    PatchMiddle(a + len' + mask', table, rest + tail, table');
    assert a + len' + mask' + (table + rest + tail) == a + len' + mask' + table + (rest + tail);
    PatchMiddle(a + len' + mask' + table', rest, tail, rest');
    assert a + len' + mask' + table' + (rest + tail) == a + len' + mask' + table' + rest + tail;
  }

  /**
   Patching the length, the bitmask, the table and the rest of the reserved space turns the open object at
   the end of the buffer into the finished one.
   */
  lemma {:induction false} PatchesToObject(done: Bytes, writes: seq<Write>, n: nat, table: Bytes)
    requires table == TableBytes(writes, n)
    ensures |table| <= 2 * n && |done + Partial(writes, n)| == |done| + ObjectLen(writes, n) && ObjectLen(writes, n) >= 8 + MaskLen(n) + 2 * n
    ensures var start, total := |done|, ObjectLen(writes, n);
            var b1 := Patch(done + Partial(writes, n), start + 4, Le(total, 4));
            var b2 := Patch(b1, start + 8, MaskBytes(Present(writes, n)));
            var b3 := Patch(b2, start + 8 + MaskLen(n), table);
            Patch(b3, start + 8 + MaskLen(n) + |table|, Zeros(2 * n - |table|)) == done + Object(writes, n)
  {
    hide Values, Le, EmptyMask, MaskBytes, TableBytes, Present, Patch, MaskLen, ValueStart;
    var total := ObjectLen(writes, n);
    HeadLen(writes, n, total);
    var magic, mask, vals := Le(CompactRecord.MAGIC_OBJ, 4), MaskBytes(Present(writes, n)), Values(writes);
    var blank, rest, pad := Zeros(|table|), Zeros(2 * n - |table|), Zeros(ValueStart(n) - 8 - MaskLen(n) - 2 * n);
    FourPatches(done + magic, Le(0, 4), Le(total, 4), EmptyMask(n), mask, blank, table, rest, rest, pad + vals);
    OpenForm(done, magic, Le(0, 4), EmptyMask(n), blank, rest, pad, vals);
    assert Zeros(ValueStart(n) - 8 - MaskLen(n)) == blank + rest + pad;
    ClosedForm(done, magic, Le(total, 4), mask, table, rest, pad, vals);
    assert Zeros(ValueStart(n) - 8 - MaskLen(n) - |table|) == rest + pad;
  }

  lemma {:induction false} OpenForm(done: Bytes, magic: Bytes, len: Bytes, mask: Bytes, blank: Bytes, rest: Bytes,
      pad: Bytes, vals: Bytes)
    ensures (done + magic) + len + mask + blank + rest + (pad + vals) == done + (magic + len + mask + (blank + rest + pad) + vals)
  {
  }

  lemma {:induction false} ClosedForm(done: Bytes, magic: Bytes, len: Bytes, mask: Bytes, table: Bytes, rest: Bytes,
      pad: Bytes, vals: Bytes)
    ensures (done + magic) + len + mask + table + rest + (pad + vals) == done + (magic + len + mask + table + (rest + pad) + vals)
  {
  }

  // ── The writer ────────────────────────────────────────────────────────────

  /** Positions of the finished objects in the buffer, as `u32`s. */
  function Starts(objects: seq<Bytes>): (s: seq<nat>)
    ensures |s| == |objects| && forall k :: 0 <= k < |s| ==> s[k] == |Join(objects[..k])| % U32
  {
    seq(|objects|, k requires 0 <= k <= |objects| => |Join(objects[..k])| % U32)
  }

  lemma {:induction false} StartsSnoc(objects: seq<Bytes>, obj: Bytes)
    ensures Starts(objects + [obj]) == Starts(objects) + [|Join(objects)| % U32]
  {
    assert forall k :: 0 <= k <= |objects| ==> (objects + [obj])[..k] == objects[..k];
    assert objects[..|objects|] == objects;
  }

  class NxsWriter {
    const keys: seq<Bytes>
    const compact: Option<Options>
    var buf: Bytes
    var frame: Option<Frame>
    var recordOffsets: seq<nat>
    var slotSigils: Bytes
    var intMin: seq<Int64>
    var intMax: seq<Int64>
    var stringCols: seq<seq<Bytes>>
    var pendingRecords: seq<CompactDense.Cells>
    ghost var rows: seq<seq<Write>>
    ghost var open: seq<Write>

    ghost predicate StatsHold()
      reads `slotSigils, `intMin, `intMax, `stringCols, `rows, `open
    {
      && slotSigils == SigilsSeen(|keys|, Flat(rows) + open)
      && intMin == MinsSeen(|keys|, Flat(rows) + open)
      && intMax == MaxsSeen(|keys|, Flat(rows) + open)
      && stringCols == StringsSeen(|keys|, Flat(rows) + open)
    }

    ghost predicate RowsHold()
      reads `buf, `recordOffsets, `frame, `rows, `open
    {
      var objects := Objects(rows, |keys|);
      && buf == Join(objects) + (if frame.Some? then Partial(open, |keys|) else [])
      && recordOffsets == Starts(objects) + (if frame.Some? then [|Join(objects)| % U32] else [])
      && (frame.Some? ==> FrameHolds(frame.value, open, |keys|, |Join(objects)|))
    }

    ghost predicate CellsHold()
      reads `pendingRecords, `frame, `rows, `open
    {
      && |pendingRecords| == |rows| && (forall k :: 0 <= k < |rows| ==> pendingRecords[k] == ToCells(rows[k]))
      && (frame.Some? ==> frame.value.cells == ToCells(open) && frame.value.bitmask == [])
    }

    ghost predicate Valid()
      reads this
    {
      && StatsHold() && (compact.None? ==> RowsHold()) && (compact.Some? ==> CellsHold())
      && (frame.None? ==> open == []) && Writable(open, |keys|)
    }

    constructor (keys: seq<Bytes>, compact: Option<Options>)
      ensures Valid() && frame.None? && rows == [] && this.keys == keys && this.compact == compact && buf == []
    {
      this.keys, this.compact := keys, compact;
      buf, frame, recordOffsets, pendingRecords := [], None, [], [];
      slotSigils := Zeros(|keys|);
      intMin := seq(|keys|, s => 0x7FFF_FFFF_FFFF_FFFF);
      intMax := seq(|keys|, s => -0x8000_0000_0000_0000);
      stringCols := seq(|keys|, s => []);
      rows, open := [], [];
    }

    method BeginObject()
      requires Valid() && frame.None?
      modifies this
      ensures Valid() && frame.Some? && rows == old(rows) && open == []
      ensures compact.None? ==> |buf| == |old(buf)| + ValueStart(|keys|)
    {
      hide Join, StatsHold, EmptyMask, MaskLen, RoundUp, Objects, FrameHolds, Partial, Le, ValueStart, Starts;
      if compact.Some? {
        frame := Some(Frame(|buf|, [], [], -1, false, [], []));
        assert ToCells([]) == [];
        return;
      }
      recordOffsets := recordOffsets + [|buf| % U32];
      var start, n := |buf|, |keys|;
      var bitmask := EmptyMask(n);
      frame := Some(Frame(start, bitmask, [], -1, false, [], []));
      buf := buf + Le(CompactRecord.MAGIC_OBJ, 4) + Le(0, 4) + bitmask;
      buf := buf + Zeros(2 * n);
      buf := buf + Zeros(RoundUp(|buf| - start, 8) - (|buf| - start));
      FrameStarts(n, start);
      PartialStarts(old(buf), n);
    }

    method MarkSlotSigil(slot: nat, sigil: Byte)
      requires slot < |slotSigils|
      modifies this`slotSigils
      ensures slotSigils == old(slotSigils)[slot := MarkSigil(old(slotSigils)[slot], sigil)]
    {
      var cur := slotSigils[slot];
      if cur == 0 || (cur == SIGIL_NULL && sigil != SIGIL_NULL) {
        slotSigils := slotSigils[slot := sigil];
      } else {
        assert slotSigils[slot := cur] == slotSigils;
      }
    }

    method MarkSlot(slot: nat)
      requires frame.Some? && slot / 7 < |frame.value.bitmask| && frame.value.start <= |buf|
      modifies this`frame
      ensures frame == Some(Marked(old(frame.value), slot, |buf|))
    {
      hide SetBit;
      var f := frame.value;
      var byteIdx, bitIdx := slot / 7, slot % 7;
      Columns.SetBitIsByte(f.bitmask[byteIdx], bitIdx);
      var rel := (|buf| - f.start) % U16;
      var needsSort := f.needsSort;
      if slot < f.lastSlot { needsSort := true; }
      frame := Some(f.(bitmask := f.bitmask[byteIdx := SetBit(f.bitmask[byteIdx], bitIdx)],
                       offsetTable := f.offsetTable + [rel], lastSlot := slot, needsSort := needsSort,
                       slotOffsets := f.slotOffsets + [SlotOffset(slot, |buf| % U32)]));
    }

    /** The part of a `write_*` call after its statistics: buffer the cell, or mark the slot and append the value. */
    method Put(slot: nat, cell: Columns.Cell)
      requires frame.Some? && slot < |keys| && Writable(open + [Write(slot, cell)], |keys|)
      requires (compact.None? ==> RowsHold()) && (compact.Some? ==> CellsHold())
      modifies this`buf, this`frame, this`open
      ensures frame.Some? && open == old(open) + [Write(slot, cell)]
      ensures (compact.None? ==> RowsHold()) && (compact.Some? ==> CellsHold())
      ensures compact.None? ==> |buf| == |old(buf)| + |ValueBytes(cell)|
    {
      hide Join, Marked, FrameHolds, Partial, Objects, ValueBytes;
      ghost var w := Write(slot, cell);
      if compact.Some? {
        frame := Some(frame.value.(cells := frame.value.cells + [(slot, ToCompact(cell))]));
        assert ToCells(open + [w]) == ToCells(open) + [(slot, ToCompact(cell))];
        open := open + [w];
        return;
      }
      ghost var done := Join(Objects(rows, |keys|));
      FrameFacts(frame.value, open, |keys|, |done|, w);
      MarkSlot(slot);
      buf := buf + ValueBytes(cell);
      PartialSnoc(open, w, |keys|);
      open := open + [w];
    }

    method WriteI64(slot: nat, v: Int64)
      requires Valid() && frame.Some? && slot < |keys| && Lookup(open, slot).None?
      modifies this
      ensures Valid() && frame.Some? && rows == old(rows) && open == old(open) + [Write(slot, Columns.I64(v))]
      ensures compact.None? ==> |buf| == |old(buf)| + 8
    {
      hide RowsHold, CellsHold, SeenSigil, SeenMin, SeenMax, SeenStrings, Flat, Lookup, Writable;
      ghost var h, w := Flat(rows) + open, Write(slot, Columns.I64(v));
      StatsSnoc(h, w, |keys|);
      StillWritable(open, w, |keys|);
      assert Flat(rows) + (open + [w]) == h + [w];
      MarkSlotSigil(slot, SIGIL_INT);
      intMin := intMin[slot := if v < intMin[slot] then v else intMin[slot]];
      intMax := intMax[slot := if v > intMax[slot] then v else intMax[slot]];
      Put(slot, Columns.I64(v));
    }

    method WriteF64(slot: nat, bits: Bits64)
      requires Valid() && frame.Some? && slot < |keys| && Lookup(open, slot).None?
      modifies this
      ensures Valid() && frame.Some? && rows == old(rows) && open == old(open) + [Write(slot, Columns.F64(bits))]
      ensures compact.None? ==> |buf| == |old(buf)| + 8
    {
      hide RowsHold, CellsHold, SeenSigil, SeenMin, SeenMax, SeenStrings, Flat, Lookup, Writable;
      ghost var h, w := Flat(rows) + open, Write(slot, Columns.F64(bits));
      StatsSnoc(h, w, |keys|);
      StillWritable(open, w, |keys|);
      assert Flat(rows) + (open + [w]) == h + [w];
      MarkSlotSigil(slot, SIGIL_FLOAT);
      Put(slot, Columns.F64(bits));
    }

    method WriteBool(slot: nat, b: bool)
      requires Valid() && frame.Some? && slot < |keys| && Lookup(open, slot).None?
      modifies this
      ensures Valid() && frame.Some? && rows == old(rows) && open == old(open) + [Write(slot, Columns.Bool(b))]
      ensures compact.None? ==> |buf| == |old(buf)| + 8
    {
      hide RowsHold, CellsHold, SeenSigil, SeenMin, SeenMax, SeenStrings, Flat, Lookup, Writable;
      ghost var h, w := Flat(rows) + open, Write(slot, Columns.Bool(b));
      StatsSnoc(h, w, |keys|);
      StillWritable(open, w, |keys|);
      assert Flat(rows) + (open + [w]) == h + [w];
      MarkSlotSigil(slot, SIGIL_BOOL);
      Put(slot, Columns.Bool(b));
    }

    method WriteTime(slot: nat, t: Int64)
      requires Valid() && frame.Some? && slot < |keys| && Lookup(open, slot).None?
      modifies this
      ensures Valid() && frame.Some? && rows == old(rows) && open == old(open) + [Write(slot, Columns.Time(t))]
      ensures compact.None? ==> |buf| == |old(buf)| + 8
    {
      hide RowsHold, CellsHold, SeenSigil, SeenMin, SeenMax, SeenStrings, Flat, Lookup, Writable;
      ghost var h, w := Flat(rows) + open, Write(slot, Columns.Time(t));
      StatsSnoc(h, w, |keys|);
      StillWritable(open, w, |keys|);
      assert Flat(rows) + (open + [w]) == h + [w];
      MarkSlotSigil(slot, SIGIL_TIME);
      Put(slot, Columns.Time(t));
    }

    method WriteStr(slot: nat, s: Bytes)
      requires Valid() && frame.Some? && slot < |keys| && Lookup(open, slot).None?
      modifies this
      ensures Valid() && frame.Some? && rows == old(rows) && open == old(open) + [Write(slot, Columns.Str(s))]
      ensures compact.None? ==> |buf| == |old(buf)| + |ValueBytes(Columns.Str(s))|
    {
      hide RowsHold, CellsHold, SeenSigil, SeenMin, SeenMax, SeenStrings, Flat, Lookup, ValueBytes, Writable;
      ghost var h, w := Flat(rows) + open, Write(slot, Columns.Str(s));
      StatsSnoc(h, w, |keys|);
      StillWritable(open, w, |keys|);
      assert Flat(rows) + (open + [w]) == h + [w];
      MarkSlotSigil(slot, SIGIL_STR);
      stringCols := stringCols[slot := stringCols[slot] + [s]];
      Put(slot, Columns.Str(s));
    }

    /** Whether `mark_slot` indexes past the open object's bitmask, which is empty in compact mode. */
    method PastMask(slot: nat) returns (past: bool)
      requires frame.Some? && slot < |keys| && Writable(open, |keys|) && Lookup(open, slot).None?
      requires (compact.None? ==> RowsHold()) && (compact.Some? ==> CellsHold())
      ensures past <==> compact.Some?
    {
      hide Join, Marked, FrameHolds, Partial, Objects, ValueBytes;
      past := slot / 7 >= |frame.value.bitmask|;
      if compact.None? {
        StillWritable(open, Write(slot, Columns.Null), |keys|);
        FrameFacts(frame.value, open, |keys|, |Join(Objects(rows, |keys|))|, Write(slot, Columns.Null));
      }
    }

    /** In compact mode this call marks a slot in an empty bitmask, and panics. */
    method WriteNull(slot: nat) returns (panics: bool)
      requires Valid() && frame.Some? && slot < |keys| && Lookup(open, slot).None?
      modifies this
      ensures panics <==> compact.Some?
      ensures !panics ==> Valid() && frame.Some? && rows == old(rows) && open == old(open) + [Write(slot, Columns.Null)]
      ensures !panics ==> |buf| == |old(buf)| + 8
    {
      hide RowsHold, CellsHold, SeenSigil, SeenMin, SeenMax, SeenStrings, Flat, Lookup, Writable;
      ghost var h, w := Flat(rows) + open, Write(slot, Columns.Null);
      StatsSnoc(h, w, |keys|);
      StillWritable(open, w, |keys|);
      assert Flat(rows) + (open + [w]) == h + [w];
      panics := PastMask(slot);
      MarkSlotSigil(slot, SIGIL_NULL);
      if !panics { Put(slot, Columns.Null); }
    }

    /** Like `WriteNull`. */
    method WriteBytes(slot: nat, raw: Bytes) returns (panics: bool)
      requires Valid() && frame.Some? && slot < |keys| && Lookup(open, slot).None?
      modifies this
      ensures panics <==> compact.Some?
      ensures !panics ==> Valid() && frame.Some? && rows == old(rows) && open == old(open) + [Write(slot, Columns.Binary(raw))]
      ensures !panics ==> |buf| == |old(buf)| + |ValueBytes(Columns.Binary(raw))|
    {
      hide RowsHold, CellsHold, SeenSigil, SeenMin, SeenMax, SeenStrings, Flat, Lookup, ValueBytes, Writable;
      ghost var h, w := Flat(rows) + open, Write(slot, Columns.Binary(raw));
      StatsSnoc(h, w, |keys|);
      StillWritable(open, w, |keys|);
      assert Flat(rows) + (open + [w]) == h + [w];
      panics := PastMask(slot);
      MarkSlotSigil(slot, SIGIL_BINARY);
      if !panics { Put(slot, Columns.Binary(raw)); }
    }

    /** The back-patching of `end_object`: length, bitmask, offset table, and the unused rest of its space. */
    method PatchObject(f: Frame, ghost done: Bytes)
      requires FrameHolds(f, open, |keys|, |done|) && Writable(open, |keys|)
      requires buf == done + Partial(open, |keys|)
      modifies `buf
      ensures buf == done + Object(open, |keys|) && |buf| == |old(buf)|
    {
      hide Patch, MaskBytes, Fields, TableBytes, MaskLen, Partial, Object, Present, Le, ValueStart, FrameHolds,
           ObjectLen;
      var n := |keys|;
      FrameIs(f, open, n, |done|);
      PatchesToObject(done, open, n, TableBytes(open, n));
      var total := |buf| - f.start;
      buf := Patch(buf, f.start + 4, Le(total, 4));
      buf := Patch(buf, f.start + 8, f.bitmask);
      var tableStart := f.start + 8 + |f.bitmask|;
      var rels := TableOf(f, open, n);
      buf := PatchTable(buf, tableStart, rels);
      var used, reserved := |f.offsetTable| * 2, n * 2;
      if used < reserved {
        buf := Patch(buf, tableStart + used, Zeros(reserved - used));
      } else {
        PatchNothing(buf, tableStart + used);
      }
    }

    /** Closing an object patches its header in place; the object is then that of its writes, in any order. */
    method EndObject()
      requires Valid() && frame.Some?
      modifies this
      ensures Valid() && frame.None? && rows == old(rows) + [old(open)]
      ensures compact.None? ==> |buf| == |old(buf)|
    {
      hide Join, SigilsSeen, MinsSeen, MaxsSeen, StringsSeen, Flat, ToCells, Partial, Object, FrameHolds, Objects,
           Starts;
      ghost var writes, objects := open, Objects(rows, |keys|);
      StatsClose(writes);
      if compact.Some? {
        pendingRecords := pendingRecords + [frame.value.cells];
      } else {
        PatchObject(frame.value, Join(objects));
        JoinSnoc(objects, Object(writes, |keys|));
        ObjectsSnoc(rows, writes, |keys|);
        StartsSnoc(objects, Object(writes, |keys|));
      }
      frame := None;
      rows, open := rows + [open], [];
    }

    ghost method StatsClose(writes: seq<Write>)
      requires StatsHold() && writes == open
      ensures Flat(rows + [writes]) + [] == Flat(rows) + open
    {
      assert (rows + [writes])[..|rows|] == rows;
    }

    /**
     Sealing gives the v1.2 file of the rows, or, in compact mode, the compact file of the rows, with the
     records' offsets as they were kept.
     */
    method Finish(hash: Hash) returns (r: Result<Bytes>)
      requires Valid() && frame.None?
      ensures compact.None? ==> r == Ok(StoredFile(keys, SeenSigils(|keys|, rows), rows, hash))
      ensures compact.Some? ==> r == StoredCompact(SchemaOf(keys, Flat(rows), compact.value), rows, compact.value, hash)
    {
      hide StoredFile, StoredCompact;
      if compact.None? {
        var file := FinishRows(hash);
        return Ok(file);
      }
      r := FinishCompact(hash);
    }

    method FinishRows(hash: Hash) returns (file: Bytes)
      requires Valid() && frame.None? && compact.None?
      ensures file == StoredFile(keys, SeenSigils(|keys|, rows), rows, hash)
    {
      hide Join, PreambleBytes, BasicHeader, ClassicEntries, Footer, Object, SeenSigil, SeenMin, SeenMax, SeenStrings,
           Flat;
      assert Flat(rows) + [] == Flat(rows);
      assert slotSigils == SeenSigils(|keys|, rows);
      var header := SchemaHeader.BuildSchema(keys, slotSigils);
      var dataStart := 32 + |header|;
      var tailPtr := dataStart + |buf|;
      var starts := recordOffsets;
      var offs := seq(|starts|, k requires 0 <= k < |starts| => dataStart + starts[k]);
      assert buf + [] == buf && recordOffsets + [] == recordOffsets;
      assert offs == StoredOffsets(Objects(rows, |keys|), dataStart);
      var tail := BuildTailIndexRecords(offs, tailPtr);
      file := PreambleBytes(VERSION, PlainFlags(), hash(header), 0) + header + buf + tail;
    }

    method FinishCompact(hash: Hash) returns (r: Result<Bytes>)
      requires Valid() && frame.None? && compact.Some?
      ensures r == StoredCompact(SchemaOf(keys, Flat(rows), compact.value), rows, compact.value, hash)
    {
      hide Join, SeenSigil, SeenMin, SeenMax, SeenStrings, Flat, ToCells, Inferred, Records, RowFileBytes,
           IndexOfFile, ExtendedHeader, PadTo, StoredOffsets, Starts;
      var opts := compact.value;
      assert Flat(rows) + [] == Flat(rows);
      var schema := Inference.BuildSchema(keys, slotSigils, intMin, intMax, stringCols, opts);
      assert schema == SchemaOf(keys, Flat(rows), opts);
      var encoded := EncodePending(pendingRecords, schema, opts, rows);
      if encoded.Err? { return Err(encoded.error); }
      r := Assemble(schema, opts, hash, encoded.value, rows);
    }
  }

  /** The parts of a compact file: preamble, header, padded data, tail index. */
  method Assemble(schema: Schema, opts: Options, hash: Hash, encoded: Encoded, ghost rows: seq<seq<Write>>)
      returns (r: Result<Bytes>)
    requires schema.Shaped() && Records(rows, schema, opts) == Ok(encoded.records)
    requires encoded.data == Join(encoded.records) && encoded.starts == Starts(encoded.records)
    ensures r == StoredCompact(schema, rows, opts, hash)
  {
    hide Join, PreambleBytes, ExtendedHeader, IndexOfFile, Footer, PadTo, Records, Options.Wire, Schema.Shaped;
    var header := BuildExtendedSchema(schema, opts.Wire());
    var data := PadLoop(encoded.data, 8);
    var dataStart := 32 + |header|;
    var tailPtr := dataStart + |data|;
    var starts := encoded.starts;
    var offs := seq(|starts|, k requires 0 <= k < |starts| => dataStart + starts[k]);
    assert offs == StoredOffsets(encoded.records, dataStart);
    var tail := BuildTail(offs, tailPtr, opts);
    if tail.Err? { return Err(tail.error); }
    r := Ok(PreambleBytes(Version(opts), opts.Wire(), hash(header), 0) + header + data + tail.value);
  }

  /** The tail index and the footer, of the kind the options ask for. */
  method BuildTail(offs: seq<nat>, tailPtr: nat, opts: Options) returns (r: Result<Bytes>)
    ensures r == match IndexOfFile(offs, opts) { case Err(e) => Err(e) case Ok(index) => Ok(index + Footer(tailPtr)) }
  {
    hide DeltaTail, DeltaIndex, ClassicIndex, Footer;
    DeltaIndexIs(offs, tailPtr, opts.blockSize);
    if opts.delta {
      var tail := BuildDeltaTailIndex(offs, tailPtr, opts.blockSize);
      if tail.Err? { return Err(tail.error); }
      return Ok(tail.value);
    }
    var tail := BuildTailIndexRecords(offs, tailPtr);
    ClassicTailIs(offs, tailPtr);
    r := Ok(tail);
  }

  lemma {:induction false} ClassicTailIs(offs: seq<nat>, tailPtr: nat)
    ensures ClassicTail(offs, tailPtr) == ClassicIndex(offs) + Footer(tailPtr)
  {
  }

  datatype Encoded = Encoded(data: Bytes, starts: seq<nat>, records: seq<Bytes>)

  /** The record loop of `finish`. */
  method EncodePending(pending: seq<CompactDense.Cells>, schema: Schema, opts: Options, ghost rows: seq<seq<Write>>)
      returns (r: Result<Encoded>)
    requires schema.Shaped() && |pending| == |rows| && forall k :: 0 <= k < |rows| ==> pending[k] == ToCells(rows[k])
    ensures r.Ok? <==> Records(rows, schema, opts).Ok?
    ensures r.Err? ==> Records(rows, schema, opts) == Err(r.error)
    ensures r.Ok? ==> r.value == Encoded(Join(Records(rows, schema, opts).value), Starts(Records(rows, schema, opts).value), Records(rows, schema, opts).value)
  {
    hide Join, CompactRecord.EncodeRecord, ToCells, Starts;
    var data: Bytes, starts: seq<nat>, records: seq<Bytes> := [], [], [];
    NoStarts();
    for k := 0 to |pending|
      invariant Records(rows[..k], schema, opts) == Ok(records)
      invariant data == Join(records) && starts == Starts(records)
    {
      assert rows[..k + 1][..k] == rows[..k];
      var record := CompactRecord.EncodeRecord(pending[k], schema, opts);
      if record.Err? {
        RecordsFail(rows, schema, opts, k + 1);
        return Err(record.error);
      }
      JoinSnoc(records, record.value);
      StartsSnoc(records, record.value);
      starts := starts + [|data| % U32];
      data := data + record.value;
      records := records + [record.value];
    }
    assert rows[..|rows|] == rows;
    r := Ok(Encoded(data, starts, records));
  }

  lemma {:induction false} NoStarts()
    ensures Join([]) == [] && Starts([]) == []
  {
  }

  lemma {:induction false} RecordsFail(rows: seq<seq<Write>>, schema: Schema, opts: Options, k: nat)
    requires schema.Shaped() && k <= |rows| && Records(rows[..k], schema, opts).Err?
    ensures Records(rows, schema, opts) == Records(rows[..k], schema, opts)
    decreases |rows| - k
  {
    if k < |rows| {
      assert rows[..k + 1][..k] == rows[..k];
      RecordsFail(rows, schema, opts, k + 1);
    } else {
      assert rows[..k] == rows;
    }
  }

  // ── Small facts the methods use ───────────────────────────────────────────

  lemma {:induction false} FrameStarts(n: nat, start: nat)
    ensures FrameHolds(Frame(start, EmptyMask(n), [], -1, false, [], []), [], n, start)
  {
    assert Present([], n) == AllFalse(n);
    EmptyMaskIsMask(n);
  }

  lemma {:induction false} PartialStarts(before: Bytes, n: nat)
    ensures var used := 8 + MaskLen(n) + 2 * n;
            before + Le(CompactRecord.MAGIC_OBJ, 4) + Le(0, 4) + EmptyMask(n) + Zeros(2 * n) + Zeros(RoundUp(used, 8) - used) ==
            before + Partial([], n)
    ensures |Partial([], n)| == ValueStart(n) == RoundUp(8 + MaskLen(n) + 2 * n, 8)
  {
    hide Le, EmptyMask, MaskLen;
    var used := 8 + MaskLen(n) + 2 * n;
    var head, pad := Le(CompactRecord.MAGIC_OBJ, 4) + Le(0, 4) + EmptyMask(n), Zeros(RoundUp(used, 8) - used);
    assert Zeros(ValueStart(n) - 8 - MaskLen(n)) == Zeros(2 * n) + pad;
    assert Partial([], n) == head + (Zeros(2 * n) + pad);
    assert before + Le(CompactRecord.MAGIC_OBJ, 4) + Le(0, 4) + EmptyMask(n) == before + head;
    assert before + head + Zeros(2 * n) + pad == before + (head + (Zeros(2 * n) + pad));
  }

  lemma {:induction false} FrameFacts(f: Frame, writes: seq<Write>, n: nat, start: nat, w: Write)
    requires FrameHolds(f, writes, n, start) && Writable(writes + [w], n)
    ensures w.slot / 7 < |f.bitmask| && f.start == start
    ensures FrameHolds(Marked(f, w.slot, start + ObjectLen(writes, n)), writes + [w], n, start)
    ensures |Partial(writes, n)| == ObjectLen(writes, n)
  {
    MarkedHolds(f, writes, n, start, w);
  }

  lemma {:induction false} StillWritable(writes: seq<Write>, w: Write, n: nat)
    requires Writable(writes, n) && w.slot < n && !w.cell.Absent? && Lookup(writes, w.slot).None?
    ensures Writable(writes + [w], n)
  {
    forall k | 0 <= k < |writes|
      ensures writes[k].slot != w.slot
    {
      LookupAt(writes, n, k);
    }
  }

  /** How one more write changes what the writer has seen. */
  lemma {:induction false} StatsSnoc(h: seq<Write>, w: Write, n: nat)
    requires w.slot < n
    ensures SigilsSeen(n, h + [w]) ==
            SigilsSeen(n, h)[w.slot := MarkSigil(SeenSigil(h, w.slot), SigilOf(w.cell))]
    ensures MinsSeen(n, h + [w]) ==
            if w.cell.I64? && w.cell.i < SeenMin(h, w.slot) then MinsSeen(n, h)[w.slot := w.cell.i] else MinsSeen(n, h)
    ensures MaxsSeen(n, h + [w]) ==
            if w.cell.I64? && w.cell.i > SeenMax(h, w.slot) then MaxsSeen(n, h)[w.slot := w.cell.i] else MaxsSeen(n, h)
    ensures StringsSeen(n, h + [w]) ==
            if w.cell.Str? then StringsSeen(n, h)[w.slot := SeenStrings(h, w.slot) + [w.cell.s]] else StringsSeen(n, h)
  {
    assert (h + [w])[..|h|] == h;
  }

  lemma {:induction false} FrameIs(f: Frame, writes: seq<Write>, n: nat, start: nat)
    requires FrameHolds(f, writes, n, start) && Writable(writes, n)
    ensures f.start == start && f.bitmask == MaskBytes(Present(writes, n)) && |f.bitmask| == MaskLen(n)
    ensures |f.offsetTable| == |writes| <= n && |TableBytes(writes, n)| == 2 * |writes|
    ensures |Partial(writes, n)| == ObjectLen(writes, n)
  {
    TableSize(writes, n, start);
  }

  lemma {:induction false} ObjectsSnoc(rows: seq<seq<Write>>, writes: seq<Write>, n: nat)
    ensures Objects(rows + [writes], n) == Objects(rows, n) + [Object(writes, n)]
  {
    hide Object;
  }

  /** The offsets for the table: as they were kept, or, when values came out of slot order, after a sort. */
  method TableOf(f: Frame, ghost writes: seq<Write>, n: nat) returns (rels: seq<nat>)
    requires FrameHolds(f, writes, n, f.start) && Writable(writes, n)
    ensures Fields(rels, 2) == TableBytes(writes, n) && |rels| == |writes|
  {
    hide RelTable, OffsetsOf, Fields, TableBytes, SortSlots, Ascending, ObjectLen, MaskBytes, Present;
    if !f.needsSort {
      DirectTable(writes, n, f.start);
      return f.offsetTable;
    }
    var pairs := SortSlots(f.slotOffsets);
    OffsetsDistinct(writes, n, f.start);
    SortAscends(f.slotOffsets);
    SortedTable(writes, n, f.start, pairs);
    assert |multiset(pairs)| == |multiset(f.slotOffsets)|;
    rels := RelsOf(pairs, f.start);
  }

  lemma {:induction false} OffsetsDistinct(writes: seq<Write>, n: nat, start: nat)
    requires Writable(writes, n)
    ensures forall j, k :: 0 <= j < k < |OffsetsOf(writes, n, start)| ==>
              OffsetsOf(writes, n, start)[j].slot != OffsetsOf(writes, n, start)[k].slot
  {
  }

  /** The table has one entry a write. */
  lemma {:induction false} TableSize(writes: seq<Write>, n: nat, start: nat)
    requires Writable(writes, n)
    ensures |TableBytes(writes, n)| == 2 * |writes| <= 2 * n && |RelTable(writes, n)| == |writes|
  {
    hide Fields, Rel;
    var offsets := OffsetsOf(writes, n, start);
    OffsetsDistinct(writes, n, start);
    SortAscends(offsets);
    SortedSlots(writes, n, start, SortSlots(offsets));
    assert |multiset(SortSlots(offsets))| == |multiset(offsets)|;
    HeadLen(writes, n, 0);
  }

  lemma {:induction false} PatchNothing(b: Bytes, p: nat)
    requires p <= |b|
    ensures Patch(b, p, Zeros(0)) == b
  {
  }
}
