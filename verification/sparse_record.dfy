/** Sparse records: the bitmask and the offset table of a written record lead every reader to its cells. */
module SparseRecord {
  import opened Bytes
  import opened Align
  import opened Bitmask
  import opened CompactSchema
  import opened CellRun
  import opened DenseWalk
  import opened WireLength
  import opened CompactCells
  import opened CompactDense
  import opened CompactSparse
  import opened CompactRecord

  // ── What the encoder writes ───────────────────────────────────────────────

  /** A list of typed cells to be encoded as a sparse record. */
  ghost predicate SparseCells(cells: Cells, schema: Schema, opts: Options)
  {
    && schema.Shaped()
    && Typed(schema, PlanOf(schema, opts))
    && Fits(cells, schema, PresentOf(cells, schema.Count()), PlanOf(schema, opts))
    && !(opts.dense && AllTrue(PresentOf(cells, schema.Count())))
  }

  function RunOf(cells: Cells, schema: Schema, opts: Options): (items: seq<Item>)
    requires SparseCells(cells, schema, opts)
    ensures Valid(items) && |items| == schema.Count()
  {
    SparseItems(cells, schema, PresentOf(cells, schema.Count()), PlanOf(schema, opts))
  }

  function EntriesOf(cells: Cells, schema: Schema, opts: Options): seq<nat>
  {
    TableSlots(PresentFrom(PresentOf(cells, schema.Count()), 0), PlanOf(schema, opts), false)
  }

  function DataStartOf(cells: Cells, schema: Schema, opts: Options): nat
  {
    DataStart(opts.dense, schema.Count(), |EntriesOf(cells, schema, opts)|)
  }

  /** The start that the offset table records for slot `s`. */
  function RecordedStart(items: seq<Item>, plan: Plan, s: nat): nat
    requires Valid(items) && s < |items|
  {
    if plan.InWord(s) then WordStart(items, plan, s) else Start(items, s)
  }

  lemma {:induction false} TableSlotsAre(present: seq<bool>, plan: Plan, i: nat, added: bool, s: nat)
    requires i <= |present|
    ensures s in TableSlots(PresentFrom(present, i), plan, added) <==>
              i <= s < |present| && present[s] && (plan.InWord(s) ==> !added && FirstPresentBool(present, plan, i) == Some(s))
    decreases |present| - i
  {
    if i < |present| {
      var rest := PresentFrom(present, i + 1);
      if present[i] {
        assert ([i] + rest)[1..] == rest;
        TableSlotsAre(present, plan, i + 1, added || plan.InWord(i), s);
      } else {
        TableSlotsAre(present, plan, i + 1, added, s);
      }
    }
  }

  /** Every table entry is the recorded start of its slot, truncated to two bytes. */
  lemma {:induction false} TableWritten(slots: seq<nat>, starts: map<nat, nat>, dataStart: nat)
    requires forall s :: s in slots ==> s in starts
    ensures OffsetTable(slots, starts, dataStart).Ok?
  {
    if |slots| > 0 {
      assert slots[0] in slots;
      TableWritten(slots[1..], starts, dataStart);
    }
  }

  lemma {:induction false} TableEntry(data: Bytes, off: nat, slots: seq<nat>, starts: map<nat, nat>, dataStart: nat,
      i: nat)
    requires OffsetTable(slots, starts, dataStart).Ok? && i < |slots|
    requires At(data, off, OffsetTable(slots, starts, dataStart).value)
    ensures slots[i] in starts
    ensures ReadU(data, off + 2 * i, 2) == Some((dataStart + starts[slots[i]]) % U16)
    decreases |slots|
  {
    var head, rest := Le(dataStart + starts[slots[0]], 2), OffsetTable(slots[1..], starts, dataStart).value;
    AtConcat(data, off, head, rest);
    if i == 0 {
      Pow256Values();
      AtLe(data, off, dataStart + starts[slots[0]], 2);
    } else {
      TableEntry(data, off + 2, slots[1..], starts, dataStart, i - 1);
    }
  }

  /** The starts the encoder collects for the offset table. */
  function StartsOf(cells: Cells, schema: Schema, opts: Options): map<nat, nat>
    requires schema.Shaped()
  {
    match EncodeSparse(cells, schema, PresentOf(cells, schema.Count()), PlanOf(schema, opts), 0, [], map[], false)
    case Ok(body) => body.starts
    case Err(_) => map[]
  }

  /** The encoder's result: the run of cells, with every start recorded. */
  lemma {:induction false} EncodesRun(cells: Cells, schema: Schema, opts: Options)
    requires SparseCells(cells, schema, opts)
    ensures EncodeSparse(cells, schema, PresentOf(cells, schema.Count()), PlanOf(schema, opts), 0, [], map[], false) ==
            Ok(SparseBody(Body(RunOf(cells, schema, opts)), StartsOf(cells, schema, opts)))
  {
    if schema.Count() > 0 {
      StartRecorded(cells, schema, opts, 0);
    }
  }

  lemma {:induction false} StartRecorded(cells: Cells, schema: Schema, opts: Options, s: nat)
    requires SparseCells(cells, schema, opts) && s < schema.Count()
    ensures EncodeSparse(cells, schema, PresentOf(cells, schema.Count()), PlanOf(schema, opts), 0, [], map[], false) ==
            Ok(SparseBody(Body(RunOf(cells, schema, opts)), StartsOf(cells, schema, opts)))
    ensures Recorded(StartsOf(cells, schema, opts), RunOf(cells, schema, opts), PresentOf(cells, schema.Count()), PlanOf(schema, opts), s)
  {
    hide EncodeSparse, Recorded, SparseItemOf, Typed, Fits;
    assert Body(RunOf(cells, schema, opts)[..0]) == [];
    EncodeSparseIsRun(cells, schema, PresentOf(cells, schema.Count()), PlanOf(schema, opts), 0, map[], false, s);
  }

  lemma {:induction false} AlignEight(n: nat)
    ensures AlignTo(n, 8) == RoundUp(n, 8)
  {
    SmallPowers();
    AlignsAtPowers(n, 8);
  }

  /** The offset table of the record, every entry truncated to two bytes. */
  function TableOf(cells: Cells, schema: Schema, opts: Options): Result<Bytes>
    requires schema.Shaped()
  {
    OffsetTable(EntriesOf(cells, schema, opts), StartsOf(cells, schema, opts), DataStartOf(cells, schema, opts))
  }

  lemma {:induction false} EntriesRecorded(cells: Cells, schema: Schema, opts: Options, s: nat)
    requires SparseCells(cells, schema, opts)
    ensures var present, plan := PresentOf(cells, schema.Count()), PlanOf(schema, opts);
            s in EntriesOf(cells, schema, opts) <==>
              s < |present| && present[s] && (plan.InWord(s) ==> FirstPresentBool(present, plan, 0) == Some(s))
    ensures s in EntriesOf(cells, schema, opts) ==>
              s in StartsOf(cells, schema, opts) &&
              StartsOf(cells, schema, opts)[s] == RecordedStart(RunOf(cells, schema, opts), PlanOf(schema, opts), s)
  {
    hide StartsOf, RunOf, Start, WordStart, Typed, Fits, TableSlots, FirstPresentBool, PresentOf, PlanFor,
         Plan.InWord, PresentFrom;
    var present, plan := PresentOf(cells, schema.Count()), PlanOf(schema, opts);
    TableSlotsAre(present, plan, 0, false, s);
    if s < schema.Count() {
      StartRecorded(cells, schema, opts, s);
    }
  }

  /** The written object, part by part: header byte, bitmask, offset table, and the run of cells. */
  lemma {:induction false} SparseParts(cells: Cells, schema: Schema, opts: Options, data: Bytes, obj: nat)
    requires SparseCells(cells, schema, opts) && Written(cells, schema, opts, data, obj)
    ensures TableOf(cells, schema, opts).Ok?
    ensures opts.dense ==> obj + 8 < |data| && data[obj + 8] == 0
    ensures At(data, obj + HeaderLen(opts.dense), MaskBytes(PresentOf(cells, schema.Count())))
    ensures At(data, obj + HeaderLen(opts.dense) + MaskLen(schema.Count()), TableOf(cells, schema, opts).value)
    ensures At(data, obj + DataStartOf(cells, schema, opts), Body(RunOf(cells, schema, opts)))
  {
    hide EncodeRecord, Body, TableOf, EntriesOf, RunOf, Typed, Fits, PresentOf, Frame, SparseRest, DataStart, At;
    SparseEncodes(cells, schema, opts);
    var present, table, body := PresentOf(cells, schema.Count()), TableOf(cells, schema, opts).value, Body(RunOf(cells, schema, opts));
    var start := DataStartOf(cells, schema, opts);
    FrameAt(data, obj, SparseRest(opts.dense, present, table, start, body));
    RestParts(data, obj, opts.dense, present, table, |EntriesOf(cells, schema, opts)|, body);
  }

  lemma {:induction false} RestParts(data: Bytes, obj: nat, dense: bool, present: seq<bool>, table: Bytes,
      entries: nat, body: Bytes)
    requires |table| == 2 * entries
    requires At(data, obj + 8, SparseRest(dense, present, table, DataStart(dense, |present|, entries), body))
    ensures dense ==> obj + 8 < |data| && data[obj + 8] == 0
    ensures At(data, obj + HeaderLen(dense), MaskBytes(present))
    ensures At(data, obj + HeaderLen(dense) + MaskLen(|present|), table)
    ensures At(data, obj + DataStart(dense, |present|, entries), body)
  {
    hide MaskBytes, At, AlignTo, RoundUp;
    var mask, start := MaskBytes(present), DataStart(dense, |present|, entries);
    AlignEight(HeaderLen(dense) + MaskLen(|present|) + 2 * entries);
    var hdr: Bytes := if dense then [0] else [];
    var head := hdr + mask + table;
    var pad := Zeros(start - 8 - |head|);
    assert SparseRest(dense, present, table, start, body) == head + pad + body;
    AtConcat(data, obj + 8, head + pad, body);
    AtConcat(data, obj + 8, head, pad);
    AtConcat(data, obj + 8, hdr + mask, table);
    AtConcat(data, obj + 8, hdr, mask);
    if dense { AtIndex(data, obj + 8, hdr, 0); }
  }

  lemma {:induction false} SparseEncodes(cells: Cells, schema: Schema, opts: Options)
    requires SparseCells(cells, schema, opts)
    ensures TableOf(cells, schema, opts).Ok?
    ensures |TableOf(cells, schema, opts).value| == 2 * |EntriesOf(cells, schema, opts)|
    ensures EncodeRecord(cells, schema, opts) ==
            Ok(Frame(SparseRest(opts.dense, PresentOf(cells, schema.Count()), TableOf(cells, schema, opts).value,
                                DataStartOf(cells, schema, opts), Body(RunOf(cells, schema, opts)))))
  {
    hide EncodeSparse, Body, RunOf, Typed, Fits, Frame, OffsetTable;
    EncodesRun(cells, schema, opts);
    forall s | s in EntriesOf(cells, schema, opts)
      ensures s in StartsOf(cells, schema, opts)
    {
      EntriesRecorded(cells, schema, opts, s);
    }
    TableWritten(EntriesOf(cells, schema, opts), StartsOf(cells, schema, opts), DataStartOf(cells, schema, opts));
  }

  // ── What the resolver recomputes ──────────────────────────────────────────

  lemma {:induction false} PresentSlotsRead(data: Bytes, obj: nat, present: seq<bool>, i: nat)
    requires At(data, obj + 9, MaskBytes(present)) && i <= |present|
    ensures PresentSlots(data, obj, |present|, i) == PresentFrom(present, i)
    decreases |present| - i
  {
    if i < |present| {
      SlotBitOfMask(data, obj + 9, present, i);
      PresentSlotsRead(data, obj, present, i + 1);
    }
  }

  lemma {:induction false} SparseMaskEndIs(data: Bytes, p: nat, present: seq<bool>, cur: nat, n: nat)
    requires At(data, p, MaskBytes(present)) && n == cur + |present|
    ensures SparseMaskEnd(data, p, cur, n) == Some(p + MaskLen(|present|))
    decreases |present|
  {
    MaskHead(data, p, present);
    if |present| > 7 {
      SparseMaskEndIs(data, p + 1, present[7..], cur + 7, n);
    }
  }

  lemma {:induction false} FirstInTable(present: seq<bool>, plan: Plan, i: nat)
    requires i <= |present|
    ensures FirstInWord(TableSlots(PresentFrom(present, i), plan, false), plan) == FirstPresentBool(present, plan, i)
    decreases |present| - i
  {
    hide *;
    PresentSteps(present, plan, i);
    if i < |present| {
      FirstInTable(present, plan, i + 1);
      if present[i] { FirstOfTable(i, PresentFrom(present, i + 1), plan); }
    } else {
      NothingInTable(plan);
    }
  }

  lemma {:induction false} PresentSteps(present: seq<bool>, plan: Plan, i: nat)
    requires i <= |present|
    ensures PresentFrom(present, i) ==
            if i == |present| then [] else if present[i] then [i] + PresentFrom(present, i + 1) else PresentFrom(present, i + 1)
    ensures FirstPresentBool(present, plan, i) ==
            if i == |present| then None else if present[i] && plan.InWord(i) then Some(i) else FirstPresentBool(present, plan, i + 1)
  {
  }

  lemma {:induction false} FirstOfTable(s: nat, rest: seq<nat>, plan: Plan)
    ensures FirstInWord(TableSlots([s] + rest, plan, false), plan) ==
            if plan.InWord(s) then Some(s) else FirstInWord(TableSlots(rest, plan, false), plan)
  {
    assert ([s] + rest)[1..] == rest;
    var table := TableSlots(rest, plan, plan.InWord(s));
    assert ([s] + table)[1..] == table;
  }

  lemma {:induction false} NothingInTable(plan: Plan)
    ensures FirstInWord(TableSlots([], plan, false), plan) == None
  {
  }

  /** Up to the second packed bool, the table has an entry for each slot. */
  lemma {:induction false} TableKeeps(slots: seq<nat>, plan: Plan, added: bool, i: nat)
    requires i < |slots| && forall j, k :: 0 <= j < k <= i ==> !(plan.InWord(slots[j]) && plan.InWord(slots[k]))
    requires added ==> forall j :: 0 <= j <= i ==> !plan.InWord(slots[j])
    ensures i < |TableSlots(slots, plan, added)| && TableSlots(slots, plan, added)[i] == slots[i]
  {
    if i > 0 { TableKeeps(slots[1..], plan, added || plan.InWord(slots[0]), i - 1); }
  }

  /** The offset the table entry of slot `s` leads to. */
  function EntryOffset(cells: Cells, schema: Schema, opts: Options, obj: nat, s: nat): nat
    requires SparseCells(cells, schema, opts) && s < schema.Count()
  {
    obj + (DataStartOf(cells, schema, opts) + RecordedStart(RunOf(cells, schema, opts), PlanOf(schema, opts), s)) % U16
  }

  /** Reading the table at the index of slot `s`. */
  lemma {:induction false} EntryReads(cells: Cells, schema: Schema, opts: Options, data: Bytes, obj: nat, i: nat)
    requires SparseCells(cells, schema, opts) && Written(cells, schema, opts, data, obj)
    requires i < |EntriesOf(cells, schema, opts)|
    ensures EntriesOf(cells, schema, opts)[i] < schema.Count()
    ensures ReadU(data, obj + HeaderLen(opts.dense) + MaskLen(schema.Count()) + 2 * i, 2) ==
            Some(EntryOffset(cells, schema, opts, obj, EntriesOf(cells, schema, opts)[i]) - obj)
  {
    hide EntriesOf, StartsOf, RunOf, Typed, Fits, Written, DataStartOf, RecordedStart, OffsetTable, Body;
    SparseParts(cells, schema, opts, data, obj);
    EntriesRecorded(cells, schema, opts, EntriesOf(cells, schema, opts)[i]);
    TableEntry(data, obj + HeaderLen(opts.dense) + MaskLen(schema.Count()), EntriesOf(cells, schema, opts),
               StartsOf(cells, schema, opts), DataStartOf(cells, schema, opts), i);
  }

  // ── Main results for sparse records ───────────────────────────────────────

  /** The slot whose table entry leads to a present slot: for a packed bool, the first present one. */
  function EntrySlot(cells: Cells, schema: Schema, opts: Options, slot: nat): (s: nat)
    requires SparseCells(cells, schema, opts) && slot < schema.Count() && Lookup(cells, slot).Some?
    ensures s < schema.Count() && Lookup(cells, s).Some?
    ensures !PlanOf(schema, opts).InWord(slot) ==> s == slot
    ensures PlanOf(schema, opts).InWord(slot) ==>
              PlanOf(schema, opts).InWord(s) && FirstPresentBool(PresentOf(cells, schema.Count()), PlanOf(schema, opts), 0) == Some(s)
  {
    if PlanOf(schema, opts).InWord(slot) then
      assert PresentOf(cells, schema.Count())[slot];
      FirstPresentBool(PresentOf(cells, schema.Count()), PlanOf(schema, opts), 0).value
    else slot
  }

  /** Packed bools are read through the record header that `read_packed_bool` assumes. */
  predicate Readable(opts: Options) { opts.packed ==> opts.dense }

  /**
   Without a record header, the rank of a slot counts every packed bool in front of it, and the table has one
   entry for them all: the slot is reached when there is no second one.
   */
  ghost predicate Reached(cells: Cells, schema: Schema, opts: Options, slot: nat)
  {
    var plan := PlanOf(schema, opts);
    Readable(opts) || (!plan.InWord(slot) &&
                       forall j, k :: 0 <= j < k < slot && plan.InWord(j) && plan.InWord(k) ==> Lookup(cells, j).None? || Lookup(cells, k).None?)
  }

  /** Resolving a slot of a sparse record follows the slot's table entry, and fails for an absent slot. */
  lemma {:induction false} SparseResolves(cells: Cells, schema: Schema, opts: Options, data: Bytes, obj: nat, slot: nat)
    requires SparseCells(cells, schema, opts) && Written(cells, schema, opts, data, obj) && slot < schema.Count()
    requires Reached(cells, schema, opts, slot)
    ensures ResolveField(data, obj, slot, schema, RowPlanOf(schema, opts.Wire()), opts.dense) ==
            if Lookup(cells, slot).None? then None
            else Some(EntryOffset(cells, schema, opts, obj, EntrySlot(cells, schema, opts, slot)) + WordByte(slot, PlanOf(schema, opts)))
  {
    hide Typed, Fits, Written, EntryOffset, RunOf, StartsOf, TableOf, Lookup, DenseFieldOffset, RowPlanOf, BoolSlots,
         Body, OffsetTable;
    if opts.dense {
      ResolvesThroughTable(cells, schema, opts, data, obj, slot);
      SparseParts(cells, schema, opts, data, obj);
    } else {
      ResolvesThroughRank(cells, schema, opts, data, obj, slot);
    }
  }

  /** With a record header, the resolver rebuilds the list of table slots and searches it. */
  lemma {:induction false} ResolvesThroughTable(cells: Cells, schema: Schema, opts: Options, data: Bytes, obj: nat,
      slot: nat)
    requires SparseCells(cells, schema, opts) && Written(cells, schema, opts, data, obj) && slot < schema.Count() && opts.dense
    ensures ResolveSparse(data, obj, slot, schema, PlanOf(schema, opts)) ==
            if Lookup(cells, slot).None? then None
            else Some(EntryOffset(cells, schema, opts, obj, EntrySlot(cells, schema, opts, slot)) + WordByte(slot, PlanOf(schema, opts)))
  {
    hide Typed, Fits, Written, EntryOffset, RunOf, StartsOf, TableOf, Lookup, BoolSlots, Body, OffsetTable, MaskBytes,
         TableSlots, PresentFrom, PresentSlots, FirstInWord, SlotBit, SparseMaskEnd, ReadU, FirstPresentBool, At,
         PlanFor, ResolveSparse;
    var present, plan := PresentOf(cells, schema.Count()), PlanOf(schema, opts);
    SparseParts(cells, schema, opts, data, obj);
    SlotBitOfMask(data, obj + 9, present, slot);
    PresentSlotsRead(data, obj, present, 0);
    SparseMaskEndIs(data, obj + 9, present, 0, schema.Count());
    FirstInTable(present, plan, 0);
    if Lookup(cells, slot).Some? {
      var s := EntrySlot(cells, schema, opts, slot);
      EntriesRecorded(cells, schema, opts, s);
      EntryReads(cells, schema, opts, data, obj, Position(EntriesOf(cells, schema, opts), s));
      TableResolves(data, obj, slot, schema, plan, EntriesOf(cells, schema, opts), obj + 9 + MaskLen(schema.Count()), s,
        EntryOffset(cells, schema, opts, obj, s) - obj);
    } else {
      BitClear(data, obj, slot, schema, plan);
    }
  }

  lemma {:induction false} TableResolves(data: Bytes, obj: nat, slot: nat, schema: Schema, plan: Plan,
      table: seq<nat>, base: nat, s: nat, rel: nat)
    requires SlotBit(data, obj + 9, slot) == Some(true) && TableSlots(PresentSlots(data, obj, schema.Count(), 0), plan, false) == table
    requires SparseMaskEnd(data, obj + 9, 0, schema.Count()) == Some(base) && s in table
    requires if plan.InWord(slot) then FirstInWord(table, plan) == Some(s) else s == slot
    requires ReadU(data, base + 2 * Position(table, s), 2) == Some(rel)
    ensures ResolveSparse(data, obj, slot, schema, plan) == Some(obj + rel + WordByte(slot, plan))
  {
    hide SlotBit, TableSlots, PresentSlots, SparseMaskEnd, FirstInWord, ReadU, Position, Plan.InWord;
  }

  lemma {:induction false} BitClear(data: Bytes, obj: nat, slot: nat, schema: Schema, plan: Plan)
    requires SlotBit(data, obj + 9, slot) != Some(true)
    ensures ResolveSparse(data, obj, slot, schema, plan) == None
  {
  }

  /** Without a record header, the v1.2 resolver ranks the slot in the bitmask. */
  lemma {:induction false} ResolvesThroughRank(cells: Cells, schema: Schema, opts: Options, data: Bytes, obj: nat,
      slot: nat)
    requires SparseCells(cells, schema, opts) && Written(cells, schema, opts, data, obj) && slot < schema.Count() && !opts.dense
    requires Reached(cells, schema, opts, slot)
    ensures ResolveSlot(data, obj, slot) ==
            if Lookup(cells, slot).None? then None else Some(EntryOffset(cells, schema, opts, obj, slot))
  {
    hide EntryOffset, Typed, Fits, Written, RunOf, StartsOf, TableOf, Body, OffsetTable, MaskBytes, EntriesOf,
         Reached, DataStartOf, SlotBit, MaskEnd, Rank, ReadU, At, Lookup, ResolveFrom, Count;
    var present := PresentOf(cells, schema.Count());
    SparseParts(cells, schema, opts, data, obj);
    SlotBitOfMask(data, obj + 8, present, slot);
    if Lookup(cells, slot).Some? {
      var rank := Count(present[..slot]);
      MaskEndOfMask(data, obj + 8, present);
      RankOfMask(data, obj + 8, present, slot);
      RankedEntry(cells, schema, opts, slot);
      EntryReads(cells, schema, opts, data, obj, rank);
      ResolvesTo(data, obj, obj + 8, slot, obj + 8 + MaskLen(schema.Count()), rank, EntryOffset(cells, schema, opts, obj, slot) - obj);
    } else {
      AbsentResolves(data, obj, obj + 8, slot);
    }
  }

  /** A slot that is reached has its table entry at its rank. */
  lemma {:induction false} RankedEntry(cells: Cells, schema: Schema, opts: Options, slot: nat)
    requires schema.Shaped() && slot < schema.Count() && !opts.dense && Reached(cells, schema, opts, slot)
    requires Lookup(cells, slot).Some?
    ensures var rank := Count(PresentOf(cells, schema.Count())[..slot]);
            rank < |EntriesOf(cells, schema, opts)| && EntriesOf(cells, schema, opts)[rank] == slot
  {
    hide PresentFrom, TableSlots, Count, Lookup, PlanFor, Plan.InWord;
    var present, plan := PresentOf(cells, schema.Count()), PlanOf(schema, opts);
    RankIsIndex(present, 0, slot);
    assert present[0..slot] == present[..slot];
    var slots, i := PresentFrom(present, 0), Count(present[..slot]);
    PresentAscends(present, 0);
    forall j, k | 0 <= j < k <= i
      ensures !(plan.InWord(slots[j]) && plan.InWord(slots[k]))
    {
      assert slots[j] in slots && slots[k] in slots && slots[k] <= slot;
      if !opts.packed { UnpackedHasNoWord(schema, opts, slots[k]); }
    }
    TableKeeps(slots, plan, false, i);
  }

  lemma {:induction false} UnpackedHasNoWord(schema: Schema, opts: Options, slot: nat)
    requires !opts.packed
    ensures !PlanOf(schema, opts).InWord(slot)
  {
  }

  /** The position at which the encoder wrote a present slot's cell, or the byte of the word with its bit. */
  function SparseWrittenOffset(cells: Cells, schema: Schema, opts: Options, obj: nat, slot: nat): nat
    requires SparseCells(cells, schema, opts) && slot < schema.Count() && Lookup(cells, slot).Some?
  {
    obj + DataStartOf(cells, schema, opts) + Start(RunOf(cells, schema, opts), EntrySlot(cells, schema, opts, slot))
    + WordByte(slot, PlanOf(schema, opts))
  }

  /** The padding in front of the shared word of a sparse record. */
  function WordPadding(cells: Cells, schema: Schema, opts: Options, s: nat): nat
    requires SparseCells(cells, schema, opts) && s < schema.Count()
  {
    Start(RunOf(cells, schema, opts), s) - |Body(RunOf(cells, schema, opts)[..s])|
  }

  /** The place recorded for a present slot fits the table's two bytes. */
  predicate InTable(cells: Cells, schema: Schema, opts: Options, slot: nat)
    requires SparseCells(cells, schema, opts) && slot < schema.Count() && Lookup(cells, slot).Some?
  {
    DataStartOf(cells, schema, opts)
    + RecordedStart(RunOf(cells, schema, opts), PlanOf(schema, opts), EntrySlot(cells, schema, opts, slot)) < U16
  }

  /**
   The table entry of a present slot leads to its cell: the recorded place fits the table's two bytes, and for
   a packed bool the padding in front of the word equals the byte index of the first present packed bool,
   since the encoder records the position before padding and adds that index a second time.
   */
  predicate Leads(cells: Cells, schema: Schema, opts: Options, slot: nat)
    requires SparseCells(cells, schema, opts) && slot < schema.Count() && Lookup(cells, slot).Some?
  {
    var s, plan := EntrySlot(cells, schema, opts, slot), PlanOf(schema, opts);
    && InTable(cells, schema, opts, slot)
    && (plan.InWord(slot) ==> WordPadding(cells, schema, opts, s) == Position(plan.boolSlots, s) / 8)
  }

  /** A present slot that is reached resolves to where its cell was written exactly when its entry leads there. */
  lemma {:induction false} SparseResolvesIff(cells: Cells, schema: Schema, opts: Options, data: Bytes, obj: nat,
      slot: nat)
    requires SparseCells(cells, schema, opts) && Written(cells, schema, opts, data, obj)
    requires slot < schema.Count() && Lookup(cells, slot).Some? && Reached(cells, schema, opts, slot)
    ensures ResolveField(data, obj, slot, schema, RowPlanOf(schema, opts.Wire()), opts.dense) ==
            Some(SparseWrittenOffset(cells, schema, opts, obj, slot))
            <==> Leads(cells, schema, opts, slot)
  {
    hide Typed, Fits, Written, RunOf, StartsOf, TableOf, Lookup, Body, OffsetTable, ResolveField, RowPlanOf,
         DataStartOf, Start, PlanFor, FirstPresentBool, Reached;
    SparseResolves(cells, schema, opts, data, obj, slot);
    var s := EntrySlot(cells, schema, opts, slot);
    StartInBody(RunOf(cells, schema, opts), s);
    if PlanOf(schema, opts).InWord(slot) {
      SmallPosition(cells, schema, opts, s);
      SmallPadding(cells, schema, opts, s);
    }
    ReachExact(DataStartOf(cells, schema, opts) + RecordedStart(RunOf(cells, schema, opts), PlanOf(schema, opts), s),
               DataStartOf(cells, schema, opts) + Start(RunOf(cells, schema, opts), s));
  }

  /** Two places less than eight apart are the same modulo 2^16 only when they are equal and in reach. */
  lemma {:induction false} ReachExact(a: nat, b: nat)
    requires a < b + 8 && b < a + 8
    ensures a % U16 == b <==> a == b && a < U16
  {
    if a < U16 { ModUnique(a, U16, 0, a); }
  }

  lemma {:induction false} SmallPadding(cells: Cells, schema: Schema, opts: Options, s: nat)
    requires SparseCells(cells, schema, opts) && s < schema.Count() && PlanOf(schema, opts).InWord(s)
    ensures WordPadding(cells, schema, opts, s) < 8
  {
    hide SlotTyped, Fits, Body, RoundUp, CellItem, BoolSlots;
  }

  lemma {:induction false} SmallPosition(cells: Cells, schema: Schema, opts: Options, s: nat)
    requires SparseCells(cells, schema, opts) && PlanOf(schema, opts).InWord(s)
    ensures Position(PlanOf(schema, opts).boolSlots, s) / 8 < 8
  {
  }

  lemma {:induction false} StartInBody(items: seq<Item>, k: nat)
    requires Valid(items) && k < |items|
    ensures |Body(items[..k])| <= Start(items, k) && Start(items, k) + |items[k].bytes| <= |Body(items)|
  {
    BodySnoc(items, k);
    BodyPrefix(items, k + 1);
  }

  /**
   Every cell of a sparse record reads back as it was written, an absent slot reads as absent, and the
   present packed bools share a word that each finds its bit in.
   */
  lemma {:induction false} SparseRoundTrip(cells: Cells, schema: Schema, opts: Options, data: Bytes, obj: nat,
      slot: nat)
    requires SparseCells(cells, schema, opts) && Written(cells, schema, opts, data, obj)
    requires slot < schema.Count() && Reached(cells, schema, opts, slot)
    requires Lookup(cells, slot).Some? ==> Leads(cells, schema, opts, slot)
    ensures GetCell(data, obj, slot, schema, RowPlanOf(schema, opts.Wire()), opts.dense) == Lookup(cells, slot)
  {
    hide Typed, Fits, Written, RunOf, Lookup, Body, ResolveField, DataStartOf, Start, Leads, Reached, ReadAt,
         BoolSlots, Plan.InWord, EntrySlot, SparseWrittenOffset;
    SparseResolves(cells, schema, opts, data, obj, slot);
    if Lookup(cells, slot).Some? {
      SparseResolvesIff(cells, schema, opts, data, obj, slot);
      SparseCellReads(cells, schema, opts, data, obj, slot);
    }
    PackedIsDense(cells, schema, opts, slot);
  }

  lemma {:induction false} PackedIsDense(cells: Cells, schema: Schema, opts: Options, slot: nat)
    requires Reached(cells, schema, opts, slot)
    ensures PlanOf(schema, opts).InWord(slot) ==> opts.dense
  {
  }

  /** The item that holds a present slot: the shared word, or the slot's own cell. */
  lemma {:induction false} SparseItemIs(cells: Cells, schema: Schema, opts: Options, slot: nat)
    requires SparseCells(cells, schema, opts) && slot < schema.Count() && Lookup(cells, slot).Some?
    ensures var cell, plan := Lookup(cells, slot).value, PlanOf(schema, opts);
            var item := RunOf(cells, schema, opts)[EntrySlot(cells, schema, opts, slot)];
            && CellFits(cell, slot, schema, plan)
            && (plan.InWord(slot) ==>
                  item.bytes == Le(BitsValue(SparseBits(cells, plan.boolSlots, PresentOf(cells, schema.Count()))), 8)[..plan.BoolWordBytes()])
            && (!plan.InWord(slot) ==> CellItem(slot, cell, schema, plan).Ok? && item.bytes == CellItem(slot, cell, schema, plan).value.bytes)
  {
    hide CellItem, CellFits, BoolSlots, SlotTyped, BitsValue, Le, SparseBits, PlanFor;
    var s := EntrySlot(cells, schema, opts, slot);
    assert PresentOf(cells, schema.Count())[slot] && PresentOf(cells, schema.Count())[s];
    if !PlanOf(schema, opts).InWord(slot) {
      FittingCellEncodes(Lookup(cells, slot).value, slot, schema, PlanOf(schema, opts), 0);
    }
  }

  /** A present packed bool's bit of the shared word. */
  lemma {:induction false} PresentBit(cells: Cells, schema: Schema, opts: Options, slot: nat)
    requires SparseCells(cells, schema, opts) && PlanOf(schema, opts).InWord(slot) && slot < schema.Count()
    requires Lookup(cells, slot).Some? && CellFits(Lookup(cells, slot).value, slot, schema, PlanOf(schema, opts))
    ensures var plan, bits := PlanOf(schema, opts), SparseBits(cells, PlanOf(schema, opts).boolSlots, PresentOf(cells, schema.Count()));
            var p := Position(plan.boolSlots, slot);
            p < |bits| && p / 8 < plan.BoolWordBytes() <= 8 && Some(Bool(bits[p])) == Lookup(cells, slot)
  {
    assert PresentOf(cells, schema.Count())[slot];
    assert schema.sigils[slot] == SIGIL_BOOL;
  }

  /** What lies where the encoder put it: the slot's cell reads back. */
  lemma {:induction false} SparseCellReads(cells: Cells, schema: Schema, opts: Options, data: Bytes, obj: nat,
      slot: nat)
    requires SparseCells(cells, schema, opts) && Written(cells, schema, opts, data, obj)
    requires slot < schema.Count() && Lookup(cells, slot).Some?
    ensures var off, plan := SparseWrittenOffset(cells, schema, opts, obj, slot), PlanOf(schema, opts);
            if plan.InWord(slot) then
              off < |data| && Some(Bool(Bit(data[off], Position(plan.boolSlots, slot) % 8))) == Lookup(cells, slot)
            else ReadAt(data, off, slot, schema) == Lookup(cells, slot)
  {
    hide *;
    var items, plan := RunOf(cells, schema, opts), PlanOf(schema, opts);
    var s := EntrySlot(cells, schema, opts, slot);
    var off := obj + DataStartOf(cells, schema, opts) + Start(items, s);
    SparseParts(cells, schema, opts, data, obj);
    ItemAt(data, obj + DataStartOf(cells, schema, opts), items, s);
    SparseItemIs(cells, schema, opts, slot);
    SparsePlaceIs(cells, schema, opts, obj, slot);
    if plan.InWord(slot) {
      PresentBit(cells, schema, opts, slot);
      WordReads(data, off, SparseBits(cells, plan.boolSlots, PresentOf(cells, schema.Count())), plan.BoolWordBytes(), Position(plan.boolSlots, slot));
    } else {
      CellRoundTrip(data, off, Lookup(cells, slot).value, slot, schema, plan);
    }
  }

  /** The written place, as an item's start and a byte of the word. */
  lemma {:induction false} SparsePlaceIs(cells: Cells, schema: Schema, opts: Options, obj: nat, slot: nat)
    requires SparseCells(cells, schema, opts) && slot < schema.Count() && Lookup(cells, slot).Some?
    ensures Typed(schema, PlanOf(schema, opts)) && schema.Shaped()
    ensures SparseWrittenOffset(cells, schema, opts, obj, slot) ==
            obj + DataStartOf(cells, schema, opts) + Start(RunOf(cells, schema, opts), EntrySlot(cells, schema, opts, slot))
            + if PlanOf(schema, opts).InWord(slot) then Position(PlanOf(schema, opts).boolSlots, slot) / 8 else 0
  {
    hide Start, DataStartOf, RunOf, EntrySlot, Lookup, Typed, Fits, PlanOf, AllTrue, Position, Plan.InWord;
  }
}
