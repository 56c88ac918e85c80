/** A compact record: framing, the resolver that recomputes every cell position, and the typed getters. */
module CompactRecord {
  import opened Bytes
  import opened Align
  import opened Bitmask
  import opened CompactSchema
  import opened CellRun
  import opened WireOrder
  import opened DenseWalk
  import opened WireLength
  import opened CompactCells
  import opened CompactDense
  import opened CompactSparse

  const MAGIC_OBJ: nat := 0x4E59_584F

  // ── Encoding ──────────────────────────────────────────────────────────────

  /** Magic and total length, then the rest of the object. */
  function Frame(rest: Bytes): (obj: Bytes)
    ensures |obj| == 8 + |rest|
  {
    Le(MAGIC_OBJ, 4) + Le(8 + |rest|, 4) + rest
  }

  function PresentOf(cells: Cells, n: nat): (present: seq<bool>)
    ensures |present| == n
  {
    seq(n, s requires 0 <= s < n => Lookup(cells, s).Some?)
  }

  /** The offset table: two bytes a slot, counted from the object's first byte. */
  function OffsetTable(slots: seq<nat>, starts: map<nat, nat>, dataStart: nat): (r: Result<Bytes>)
    ensures r.Ok? ==> |r.value| == 2 * |slots|
  {
    if |slots| == 0 then Ok([])
    else if slots[0] !in starts then Err(ParseError)
    else
      var rest :- OffsetTable(slots[1..], starts, dataStart);
      Ok(Le(dataStart + starts[slots[0]], 2) + rest)
  }

  /** The bytes before the bitmask: magic and length, and the record header byte of a v1.3 frame. */
  function HeaderLen(dense: bool): nat { if dense then 9 else 8 }

  function DataStart(dense: bool, n: nat, entries: nat): nat
  {
    AlignTo(HeaderLen(dense) + MaskLen(n) + 2 * entries, 8)
  }

  function SparseRest(dense: bool, present: seq<bool>, table: Bytes, dataStart: nat, body: Bytes): Bytes
  {
    var head := (if dense then [0] else []) + MaskBytes(present) + table;
    head + Zeros(if 8 + |head| < dataStart then dataStart - 8 - |head| else 0) + body
  }

  /** `encode_compact_record` */
  function EncodeRecord(cells: Cells, schema: Schema, opts: Options): (r: Result<Bytes>)
    requires schema.Shaped()
  {
    var n := schema.Count();
    var plan := PlanFor(schema, opts.Wire());
    var present := PresentOf(cells, n);
    if opts.dense && AllTrue(present) then
      var body :- EncodeDense(cells, schema, plan, Order(schema, plan), 0, []);
      Ok(Frame([1] + body))
    else
      var body :- EncodeSparse(cells, schema, present, plan, 0, [], map[], false);
      var slots := TableSlots(PresentFrom(present, 0), plan, false);
      var dataStart := DataStart(opts.dense, n, |slots|);
      var table :- OffsetTable(slots, body.starts, dataStart);
      Ok(Frame(SparseRest(opts.dense, present, table, dataStart, body.bytes)))
  }

  predicate AllTrue(present: seq<bool>)
  {
    forall s :: 0 <= s < |present| ==> present[s]
  }

  // ── Resolving ─────────────────────────────────────────────────────────────

  /** `sparse_bitmask_end`: stops after the byte that holds the last of `n` slots. */
  function SparseMaskEnd(data: Bytes, p: nat, cur: nat, n: nat): (end: Option<nat>)
    decreases |data| - p
  {
    if p >= |data| then None
    else if cur + 7 >= n || !More(data[p]) then Some(p + 1)
    else SparseMaskEnd(data, p + 1, cur + 7, n)
  }

  predicate BitSet(data: Bytes, obj: nat, slot: nat) { SlotBit(data, obj + 9, slot) == Some(true) }

  /** `sparse_present_slots` */
  function PresentSlots(data: Bytes, obj: nat, n: nat, i: nat): (slots: seq<nat>)
    requires i <= n
    decreases n - i
  {
    if i == n then []
    else if BitSet(data, obj, i) then [i] + PresentSlots(data, obj, n, i + 1)
    else PresentSlots(data, obj, n, i + 1)
  }

  function FirstInWord(slots: seq<nat>, plan: Plan): (s: Option<nat>)
    ensures s.Some? ==> s.value in slots && plan.InWord(s.value)
  {
    if |slots| == 0 then None
    else if plan.InWord(slots[0]) then Some(slots[0])
    else FirstInWord(slots[1..], plan)
  }

  /** `resolve_slot_v13_sparse` */
  function ResolveSparse(data: Bytes, obj: nat, slot: nat, schema: Schema, plan: Plan): (off: Option<nat>)
  {
    if !BitSet(data, obj, slot) then None
    else
      var table := TableSlots(PresentSlots(data, obj, schema.Count(), 0), plan, false);
      var base :- SparseMaskEnd(data, obj + 9, 0, schema.Count());
      if plan.InWord(slot) then
        var first :- FirstInWord(table, plan);
        var rel :- ReadU(data, base + 2 * Position(table, first), 2);
        Some(obj + rel + Position(plan.boolSlots, slot) / 8)
      else if slot !in table then None
      else
        var rel :- ReadU(data, base + 2 * Position(table, slot), 2);
        Some(obj + rel)
  }

  /** `resolve_field_offset`: a dense walk, the v1.3 offset table, or the v1.2 resolver. */
  function ResolveField(data: Bytes, obj: nat, slot: nat, schema: Schema, rows: RowPlan, dense: bool)
      : (off: Option<nat>)
    requires schema.Shaped()
  {
    if !dense then ResolveSlot(data, obj, slot)
    else if obj + 8 >= |data| then None
    else if data[obj + 8] % 2 == 1 then
      match DenseFieldOffset(data, obj, slot, schema, rows)
      case Ok(off) => off
      case Err(_) => None
    else ResolveSparse(data, obj, slot, schema, rows.plan)
  }

  /**
   The typed getters of a row reader. A packed bool is read as `read_packed_bool` does, which assumes a
   record header whatever the file's flags say.
   */
  function GetCell(data: Bytes, obj: nat, slot: nat, schema: Schema, rows: RowPlan, dense: bool)
      : (cell: Option<CompactCell>)
    requires schema.Shaped() && slot < schema.Count()
  {
    if rows.plan.InWord(slot) then
      var off :- ResolveField(data, obj, slot, schema, rows, true);
      if off < |data| then Some(Bool(Bit(data[off], Position(rows.plan.boolSlots, slot) % 8))) else None
    else
      var off :- ResolveField(data, obj, slot, schema, rows, dense);
      ReadAt(data, off, slot, schema)
  }

  // ── Dense records ─────────────────────────────────────────────────────────

  lemma {:induction false} FrameAt(data: Bytes, obj: nat, rest: Bytes)
    requires At(data, obj, Frame(rest))
    ensures At(data, obj + 8, rest)
    ensures ReadU(data, obj, 4) == Some(MAGIC_OBJ)
    ensures 8 + |rest| < U32 ==> ReadU(data, obj + 4, 4) == Some(8 + |rest|)
  {
    Pow256Values();
    AtConcat(data, obj, Le(MAGIC_OBJ, 4) + Le(8 + |rest|, 4), rest);
    AtConcat(data, obj, Le(MAGIC_OBJ, 4), Le(8 + |rest|, 4));
    AtLe(data, obj, MAGIC_OBJ, 4);
    AtLe(data, obj + 4, 8 + |rest|, 4);
  }

  /** The run of cells that a complete record's body is. */
  function DenseItems(cells: Cells, schema: Schema, plan: Plan): (items: seq<Item>)
    requires Typed(schema, plan) && Complete(cells, schema, plan)
    ensures Valid(items)
  {
    OrderInRange(schema, plan);
    Items(Order(schema, plan), cells, schema, plan)
  }

  lemma {:induction false} OwnerInOrder(slot: nat, schema: Schema, plan: Plan)
    requires PlanFits(plan, schema) && slot < schema.Count()
    ensures Owner(slot, plan) in Order(schema, plan) && Distinct(Order(schema, plan))
  {
    if plan.InWord(slot) { assert plan.boolSlots[0] in plan.boolSlots; }
    if plan.reorder {
      OrderIsPermutation(schema, plan);
    } else {
      assert Order(schema, plan)[Owner(slot, plan)] == Owner(slot, plan);
    }
  }

  /** The index, in wire order, of the cell that carries a slot. */
  function CellIndex(slot: nat, schema: Schema, plan: Plan): (j: nat)
    requires PlanFits(plan, schema) && slot < schema.Count()
    ensures j < |Order(schema, plan)| && Order(schema, plan)[j] == Owner(slot, plan)
  {
    OwnerInOrder(slot, schema, plan);
    Position(Order(schema, plan), Owner(slot, plan))
  }

  /** Where the encoder put a slot's cell, or the byte of the word that holds its bit, in the body. */
  function WrittenAt(slot: nat, cells: Cells, schema: Schema, plan: Plan): (pos: nat)
    requires Typed(schema, plan) && Complete(cells, schema, plan) && slot < schema.Count()
  {
    Start(DenseItems(cells, schema, plan), CellIndex(slot, schema, plan)) + WordByte(slot, plan)
  }

  /** Where the shared word is written, its position suits the readers' alignment formula. */
  ghost predicate InStep(cells: Cells, schema: Schema, plan: Plan)
    requires Typed(schema, plan) && Complete(cells, schema, plan)
  {
    OrderInRange(schema, plan);
    forall k :: 0 <= k < |Order(schema, plan)| ==> CellInStep(Order(schema, plan), DenseItems(cells, schema, plan), plan, k)
  }

  /** A word of 1, 2, 4 or 8 bytes is in step wherever it is written. */
  lemma {:induction false} WordOkIsInStep(cells: Cells, schema: Schema, plan: Plan)
    requires Typed(schema, plan) && Complete(cells, schema, plan) && WordOk(plan)
    ensures InStep(cells, schema, plan)
  {
    var order, items := Order(schema, plan), DenseItems(cells, schema, plan);
    forall k | 0 <= k < |order| && plan.InWord(order[k])
      ensures plan.BoolWordBytes() >= 1 && WordInStep(|Body(items[..k])|, plan)
    {
      WordOkInStep(|Body(items[..k])|, plan);
    }
  }

  /** The word's byte that holds a packed bool, and the bool's bit in it. */
  lemma {:induction false} WordReads(data: Bytes, off: nat, bits: seq<bool>, bytes: nat, p: nat)
    requires p < |bits| && p / 8 < bytes <= 8
    requires At(data, off, Le(BitsValue(bits), 8)[..bytes])
    ensures off + p / 8 < |data| && Bit(data[off + p / 8], p % 8) == bits[p]
  {
    var word := Le(BitsValue(bits), 8);
    AtIndex(data, off, word[..bytes], p / 8);
    BitOfByte(BitsValue(bits), 8, p / 8, p % 8);
    BitOfBits(bits, p);
  }

  /** What lies where the encoder put it: the slot's cell reads back. */
  lemma {:induction false} DenseCellReads(data: Bytes, base: nat, slot: nat, cells: Cells, schema: Schema, plan: Plan)
    requires Typed(schema, plan) && Complete(cells, schema, plan) && slot < schema.Count()
    requires At(data, base, Body(DenseItems(cells, schema, plan)))
    ensures var off := base + WrittenAt(slot, cells, schema, plan);
            if plan.InWord(slot) then
              off < |data| && Some(Bool(Bit(data[off], Position(plan.boolSlots, slot) % 8))) == Lookup(cells, slot)
            else ReadAt(data, off, slot, schema) == Lookup(cells, slot)
  {
    hide *;
    var off := base + WrittenAt(slot, cells, schema, plan);
    DensePlaceIs(data, base, slot, cells, schema, plan);
    if plan.InWord(slot) {
      var p := Position(plan.boolSlots, slot);
      WordReads(data, off - p / 8, WordBits(cells, plan.boolSlots), plan.BoolWordBytes(), p);
    } else {
      CellRoundTrip(data, off, Lookup(cells, slot).value, slot, schema, plan);
    }
  }

  /** What lies at a slot's written place: its cell's bytes, or, that many bytes in front, the word's. */
  lemma {:induction false} DensePlaceIs(data: Bytes, base: nat, slot: nat, cells: Cells, schema: Schema, plan: Plan)
    requires Typed(schema, plan) && Complete(cells, schema, plan) && slot < schema.Count()
    requires At(data, base, Body(DenseItems(cells, schema, plan)))
    ensures Lookup(cells, slot).Some? && CellFits(Lookup(cells, slot).value, slot, schema, plan)
    ensures var off, bits := base + WrittenAt(slot, cells, schema, plan), WordBits(cells, plan.boolSlots);
            if plan.InWord(slot) then
              var p := Position(plan.boolSlots, slot);
              && p < |bits| && p / 8 < plan.BoolWordBytes() <= 8 && p / 8 <= off
              && At(data, off - p / 8, Le(BitsValue(bits), 8)[..plan.BoolWordBytes()]) && Some(Bool(bits[p])) == Lookup(cells, slot)
            else
              && CellItem(slot, Lookup(cells, slot).value, schema, plan).Ok?
              && At(data, off, CellItem(slot, Lookup(cells, slot).value, schema, plan).value.bytes)
  {
    hide Body, Start, At, CellItem, BoolSlots, SlotTyped, BitsValue, CellIndex, Order, Le;
    var items := DenseItems(cells, schema, plan);
    OrderInRange(schema, plan);
    ItemAt(data, base, items, CellIndex(slot, schema, plan));
    if plan.InWord(slot) {
      OwnerIs(slot, Owner(slot, plan), plan);
    } else {
      FittingCellEncodes(Lookup(cells, slot).value, slot, schema, plan, 0);
    }
  }

  /** Only a promoted string can be misplaced. */
  lemma {:induction false} UnalignedIsPromoted(slot: nat, schema: Schema, flags: WireFlags)
    requires schema.Shaped() && Unaligned(slot, schema, RowPlanOf(schema, flags))
    ensures schema.IsPromoted(slot)
  {
    var plan := PlanFor(schema, flags);
    OrderInRange(schema, plan);
    MisplacedIsPromoted(Order(schema, plan), schema, slot, |FixedOrder(schema, plan)|, RowPlanOf(schema, flags).varStart.value);
  }

  lemma {:induction false} MisplacedIsPromoted(order: seq<nat>, schema: Schema, slot: nat, k: nat, pos: nat)
    requires InRange(order, schema) && k <= |order| && Misplaced(order, schema, slot, k, pos)
    ensures schema.IsPromoted(slot)
    decreases |order| - k
  {
    if order[k] != slot { MisplacedIsPromoted(order, schema, slot, k + 1, pos); }
  }

  /** The word of a packed bool is in step, or the slot is not a packed bool. */
  ghost predicate OwnWordInStep(slot: nat, cells: Cells, schema: Schema, plan: Plan)
    requires Typed(schema, plan) && Complete(cells, schema, plan) && slot < schema.Count()
  {
    OrderInRange(schema, plan);
    CellInStep(Order(schema, plan), DenseItems(cells, schema, plan), plan, CellIndex(slot, schema, plan))
  }

  /**
   The walk over a written record answers with the written position of a packed bool exactly when the
   word is in step, and of any other slot when no word before it is out of step.
   */
  lemma {:induction false} WalkAnswersIff(cells: Cells, schema: Schema, plan: Plan, data: Bytes, obj: nat, slot: nat)
    requires Typed(schema, plan) && Complete(cells, schema, plan) && slot < schema.Count()
    requires At(data, obj + 9, Body(DenseItems(cells, schema, plan)))
    requires plan.InWord(slot) || InStep(cells, schema, plan)
    ensures WalkAnswer(data, obj, slot, schema, plan) == Ok(Some(obj + 9 + WrittenAt(slot, cells, schema, plan)))
            <==> OwnWordInStep(slot, cells, schema, plan)
  {
    hide Body, Start, At, CellItem, BoolSlots, Order, Walk, WordInStep, Complete, Plan.BoolWordBytes, SlotTyped;
    OrderInRange(schema, plan);
    OwnerInOrder(slot, schema, plan);
    var order, items, j := Order(schema, plan), DenseItems(cells, schema, plan), CellIndex(slot, schema, plan);
    forall i | 0 <= i < j
      ensures CellInStep(order, items, plan, i)
    {
      assert order[i] != order[j];
    }
    WalkFindsCell(data, obj + 9, slot, cells, schema, plan, order, j);
  }

  // ── Main results for dense records ────────────────────────────────────────

  function PlanOf(schema: Schema, opts: Options): Plan { PlanFor(schema, opts.Wire()) }

  /** A complete list of typed cells, to be encoded with dense frames. */
  ghost predicate DenseCells(cells: Cells, schema: Schema, opts: Options)
  {
    opts.dense && Typed(schema, PlanOf(schema, opts)) && Complete(cells, schema, PlanOf(schema, opts))
  }

  /** `data` holds the encoded record at `obj`. */
  ghost predicate Written(cells: Cells, schema: Schema, opts: Options, data: Bytes, obj: nat)
    requires schema.Shaped()
  {
    EncodeRecord(cells, schema, opts).Ok? && At(data, obj, EncodeRecord(cells, schema, opts).value)
  }

  /** A complete record of typed cells is encoded as the header byte 1 and its run of cells. */
  lemma {:induction false} DenseEncodes(cells: Cells, schema: Schema, opts: Options)
    requires DenseCells(cells, schema, opts)
    ensures EncodeRecord(cells, schema, opts) == Ok(Frame([1] + Body(DenseItems(cells, schema, PlanOf(schema, opts)))))
  {
    hide Frame, Order, CellItem, BoolSlots, SlotTyped, CellFits;
    var plan := PlanOf(schema, opts);
    OrderInRange(schema, plan);
    var items := DenseItems(cells, schema, plan);
    assert Body(items[..0]) == [];
    EncodeDenseIsRun(cells, schema, plan, Order(schema, plan), 0);
  }

  /** The body of a complete record, behind its header byte. */
  lemma {:induction false} DenseBodyAt(cells: Cells, schema: Schema, opts: Options, data: Bytes, obj: nat)
    requires DenseCells(cells, schema, opts) && Written(cells, schema, opts, data, obj)
    ensures obj + 8 < |data| && data[obj + 8] == 1
    ensures At(data, obj + 9, Body(DenseItems(cells, schema, PlanOf(schema, opts))))
  {
    hide EncodeRecord, Frame, Body, DenseItems;
    DenseEncodes(cells, schema, opts);
    var body := Body(DenseItems(cells, schema, PlanOf(schema, opts)));
    FrameAt(data, obj, [1] + body);
    AtHead(data, obj + 8, [1], body);
  }

  lemma {:induction false} InStepOwn(cells: Cells, schema: Schema, plan: Plan, slot: nat)
    requires Typed(schema, plan) && Complete(cells, schema, plan) && slot < schema.Count()
    requires InStep(cells, schema, plan)
    ensures OwnWordInStep(slot, cells, schema, plan)
  {
  }

  lemma {:induction false} WordSlotIsAligned(slot: nat, schema: Schema, flags: WireFlags)
    requires Typed(schema, PlanFor(schema, flags)) && PlanFor(schema, flags).InWord(slot)
    ensures !Unaligned(slot, schema, RowPlanOf(schema, flags))
  {
    hide Unaligned, RowPlanOf;
    assert SlotTyped(slot, schema, PlanFor(schema, flags));
    if Unaligned(slot, schema, RowPlanOf(schema, flags)) {
      UnalignedIsPromoted(slot, schema, flags);
    }
  }

  /** A dense record's slot resolves to the walk's answer, or one byte short of it if it is unaligned. */
  lemma {:induction false} ResolvesFromWalk(data: Bytes, obj: nat, slot: nat, schema: Schema, flags: WireFlags,
      off: nat)
    requires schema.Shaped() && obj + 8 < |data| && data[obj + 8] == 1
    ensures var rows := RowPlanOf(schema, flags);
            ResolveField(data, obj, slot, schema, rows, true) == Some(off)
            <==> WalkAnswer(data, obj, slot, schema, rows.plan) == Ok(Some(if Unaligned(slot, schema, rows) then off + 1 else off))
  {
    hide WalkAnswer, Unaligned, RowPlanOf, DenseFieldOffset;
    TableRefinesWalk(data, obj, slot, schema, flags);
  }

  /** The position at which the encoder wrote a slot's cell, counted from the start of `data`. */
  function WrittenOffset(cells: Cells, schema: Schema, opts: Options, obj: nat, slot: nat): nat
    requires DenseCells(cells, schema, opts) && slot < schema.Count()
  {
    obj + 9 + WrittenAt(slot, cells, schema, PlanOf(schema, opts))
  }

  lemma {:induction false} DensePlanIs(cells: Cells, schema: Schema, opts: Options, obj: nat, slot: nat)
    requires DenseCells(cells, schema, opts) && slot < schema.Count()
    ensures schema.Shaped() && slot < |schema.sigils| && PlanOf(schema, opts) == PlanFor(schema, opts.Wire()) == RowPlanOf(schema, opts.Wire()).plan
    ensures Typed(schema, PlanOf(schema, opts)) && Complete(cells, schema, PlanOf(schema, opts))
    ensures WrittenOffset(cells, schema, opts, obj, slot) == obj + 9 + WrittenAt(slot, cells, schema, PlanOf(schema, opts))
  {
    hide WrittenAt, Complete, SlotTyped, PlanFor;
  }

  /**
   Resolving a slot of a complete record gives the position the encoder wrote it at, exactly when: for a
   packed bool, the shared word is in step; for any other slot, it is not the one `Unaligned` names.
   */
  lemma {:induction false} DenseResolvesIff(cells: Cells, schema: Schema, opts: Options, data: Bytes, obj: nat,
      slot: nat)
    requires DenseCells(cells, schema, opts) && Written(cells, schema, opts, data, obj) && slot < schema.Count()
    requires PlanOf(schema, opts).InWord(slot) || InStep(cells, schema, PlanOf(schema, opts))
    ensures ResolveField(data, obj, slot, schema, RowPlanOf(schema, opts.Wire()), true) == Some(WrittenOffset(cells, schema, opts, obj, slot))
            <==> if PlanOf(schema, opts).InWord(slot) then OwnWordInStep(slot, cells, schema, PlanOf(schema, opts))
                 else !Unaligned(slot, schema, RowPlanOf(schema, opts.Wire()))
  {
    hide *;
    var plan, off := PlanOf(schema, opts), WrittenOffset(cells, schema, opts, obj, slot);
    DenseBodyAt(cells, schema, opts, data, obj);
    DensePlanIs(cells, schema, opts, obj, slot);
    WalkAnswersIff(cells, schema, plan, data, obj, slot);
    ResolvesFromWalk(data, obj, slot, schema, opts.Wire(), off);
    if plan.InWord(slot) {
      WordSlotIsAligned(slot, schema, opts.Wire());
    } else {
      InStepOwn(cells, schema, plan, slot);
    }
  }

  /** The reader's position when it comes to a slot's cell, if it can be told from the cells. */
  function TrackedTo(cells: Cells, schema: Schema, plan: Plan, slot: nat): Option<nat>
    requires Typed(schema, plan) && Complete(cells, schema, plan) && slot < schema.Count()
  {
    OrderInRange(schema, plan);
    Tracked(cells, schema, plan, Order(schema, plan), CellIndex(slot, schema, plan))
  }

  /**
   In step or not, a slot of a complete record resolves to the place that the tracked position leads to, less
   the byte that the table's loop misses for the one slot that `Unaligned` names. So a slot behind a word that
   is out of step is found exactly when that place is where its cell was written.
   */
  lemma {:induction false} DenseResolvesTo(cells: Cells, schema: Schema, opts: Options, data: Bytes, obj: nat,
      slot: nat)
    requires DenseCells(cells, schema, opts) && Written(cells, schema, opts, data, obj) && slot < schema.Count()
    requires TrackedTo(cells, schema, PlanOf(schema, opts), slot).Some?
    ensures var found := FoundAt(TrackedTo(cells, schema, PlanOf(schema, opts), slot).value, slot, schema, PlanOf(schema, opts));
            ResolveField(data, obj, slot, schema, RowPlanOf(schema, opts.Wire()), true) ==
            Some(obj + 9 + found - if Unaligned(slot, schema, RowPlanOf(schema, opts.Wire())) then 1 else 0)
  {
    hide *;
    var plan := PlanOf(schema, opts);
    DenseBodyAt(cells, schema, opts, data, obj);
    DensePlanIs(cells, schema, opts, obj, slot);
    WalkAnswersTracked(cells, schema, plan, data, obj, slot);
    var found := FoundAt(TrackedTo(cells, schema, plan, slot).value, slot, schema, plan);
    ResolvesFromWalk(data, obj, slot, schema, opts.Wire(),
                     obj + 9 + found - if Unaligned(slot, schema, RowPlanOf(schema, opts.Wire())) then 1 else 0);
  }

  lemma {:induction false} WalkAnswersTracked(cells: Cells, schema: Schema, plan: Plan, data: Bytes, obj: nat,
      slot: nat)
    requires Typed(schema, plan) && Complete(cells, schema, plan) && slot < schema.Count()
    requires At(data, obj + 9, Body(DenseItems(cells, schema, plan))) && TrackedTo(cells, schema, plan, slot).Some?
    ensures WalkAnswer(data, obj, slot, schema, plan) ==
            Ok(Some(obj + 9 + FoundAt(TrackedTo(cells, schema, plan, slot).value, slot, schema, plan)))
  {
    hide Body, At, Tracked, Order, Walk, Complete, Plan.BoolWordBytes, SlotTyped, FoundAt, BoolSlots;
    OrderInRange(schema, plan);
    OwnerInOrder(slot, schema, plan);
    WalkTracks(data, obj + 9, slot, cells, schema, plan, Order(schema, plan), CellIndex(slot, schema, plan));
  }

  /**
   Every cell of a complete record reads back as it was written, with or without wire reordering, when
   the shared word is in step and the slot is not the one string that `Unaligned` names.
   */
  lemma {:induction false} DenseRoundTrip(cells: Cells, schema: Schema, opts: Options, data: Bytes, obj: nat, slot: nat)
    requires DenseCells(cells, schema, opts) && Written(cells, schema, opts, data, obj) && slot < schema.Count()
    requires InStep(cells, schema, PlanOf(schema, opts)) && !Unaligned(slot, schema, RowPlanOf(schema, opts.Wire()))
    ensures GetCell(data, obj, slot, schema, RowPlanOf(schema, opts.Wire()), true) == Lookup(cells, slot)
  {
    hide Typed, Complete, Written, InStep, OwnWordInStep, Unaligned, ResolveField, WrittenAt, Body, At, DenseItems,
         ReadAt, Plan.InWord, Lookup, BoolSlots;
    var plan := PlanOf(schema, opts);
    DenseBodyAt(cells, schema, opts, data, obj);
    InStepOwn(cells, schema, plan, slot);
    DenseResolvesIff(cells, schema, opts, data, obj, slot);
    DenseCellReads(data, obj + 9, slot, cells, schema, plan);
  }
}
