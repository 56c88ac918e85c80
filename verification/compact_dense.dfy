/** Dense record bodies: every cell in wire order, without a bitmask or an offset table. */
module CompactDense {
  import opened Bytes
  import opened Align
  import opened CompactSchema
  import opened CellRun
  import opened WireOrder
  import opened DenseWalk
  import opened WireLength
  import opened CompactCells

  type Cells = seq<(nat, CompactCell)>

  /** The cell a `HashMap` built from the list holds for a slot: the last one written. */
  function Lookup(cells: Cells, slot: nat): (c: Option<CompactCell>)
  {
    if |cells| == 0 then None
    else if cells[|cells| - 1].0 == slot then Some(cells[|cells| - 1].1)
    else Lookup(cells[..|cells| - 1], slot)
  }

  /** The bits of the shared word: a bool slot's bit is its position among the bool slots. */
  function WordBits(cells: Cells, slots: seq<nat>): (bits: seq<bool>)
    ensures |bits| == |slots|
  {
    seq(|slots|, j requires 0 <= j < |slots| => Lookup(cells, slots[j]) == Some(Bool(true)))
  }

  /** The word `emit_bool_word` appends after padding the body to its size. */
  function WordItem(cells: Cells, plan: Plan): (item: Item)
    requires plan.packed && 0 < |plan.boolSlots| <= 64
    ensures item.Valid() && item.align == |item.bytes| == plan.BoolWordBytes()
  {
    Item(plan.BoolWordBytes(), Le(BitsValue(WordBits(cells, plan.boolSlots)), 8)[..plan.BoolWordBytes()])
  }

  /** `encode_dense_body`, from cell `k`. A word of more than 64 bools is sliced past its eight bytes. */
  function EncodeDense(cells: Cells, schema: Schema, plan: Plan, order: seq<nat>, k: nat, body: Bytes)
      : (r: Result<Bytes>)
    requires k <= |order|
    decreases |order| - k
  {
    if k == |order| then Ok(body)
    else
      var fi := order[k];
      if plan.InWord(fi) then
        if plan.FirstBool() != Some(fi) then EncodeDense(cells, schema, plan, order, k + 1, body)
        else if |plan.boolSlots| > 64 then Err(Panic)
        else EncodeDense(cells, schema, plan, order, k + 1, Append(body, WordItem(cells, plan)))
      else
        match Lookup(cells, fi)
        case None => Err(OutOfBounds)
        case Some(cell) =>
          var item :- CellItem(fi, cell, schema, plan);
          EncodeDense(cells, schema, plan, order, k + 1, Append(body, item))
  }

  method EncodeDenseBody(cells: Cells, schema: Schema, plan: Plan) returns (r: Result<Bytes>)
    requires schema.Shaped()
    ensures r == EncodeDense(cells, schema, plan, Order(schema, plan), 0, [])
  {
    var order := Order(schema, plan);
    var body: Bytes := [];
    for k := 0 to |order|
      invariant EncodeDense(cells, schema, plan, order, 0, []) == EncodeDense(cells, schema, plan, order, k, body)
    {
      var fi := order[k];
      if plan.InWord(fi) {
        if plan.FirstBool() == Some(fi) {
          if |plan.boolSlots| > 64 { return Err(Panic); }
          var padded := PadLoop(body, plan.BoolWordBytes());
          body := padded + WordItem(cells, plan).bytes;
        }
      } else {
        var cell := Lookup(cells, fi);
        if cell.None? { return Err(OutOfBounds); }
        var appended := AppendCell(body, fi, cell.value, schema, plan);
        if appended.Err? { return Err(appended.error); }
        body := appended.value;
      }
    }
    r := Ok(body);
  }

  // ── The body as a run of cells ────────────────────────────────────────────

  /** Every slot has a cell of its column's type. */
  ghost predicate Complete(cells: Cells, schema: Schema, plan: Plan)
    requires schema.Shaped()
  {
    forall s :: 0 <= s < schema.Count() ==> Lookup(cells, s).Some? && CellFits(Lookup(cells, s).value, s, schema, plan)
  }

  function ItemOf(fi: nat, cells: Cells, schema: Schema, plan: Plan): (item: Item)
    requires Typed(schema, plan) && Complete(cells, schema, plan) && fi < schema.Count()
    ensures item.Valid()
  {
    if plan.InWord(fi) then
      (if plan.FirstBool() == Some(fi) then WordItem(cells, plan) else Item(1, []))
    else
      FittingCellEncodes(Lookup(cells, fi).value, fi, schema, plan, 0);
      CellItem(fi, Lookup(cells, fi).value, schema, plan).value
  }

  function Items(order: seq<nat>, cells: Cells, schema: Schema, plan: Plan): (items: seq<Item>)
    requires Typed(schema, plan) && Complete(cells, schema, plan) && InRange(order, schema)
    ensures |items| == |order| && Valid(items)
    ensures forall j :: 0 <= j < |order| ==> items[j] == ItemOf(order[j], cells, schema, plan)
  {
    seq(|order|, j requires 0 <= j < |order| => ItemOf(order[j], cells, schema, plan))
  }

  lemma {:induction false} EncodeDenseIsRun(cells: Cells, schema: Schema, plan: Plan, order: seq<nat>, k: nat)
    requires Typed(schema, plan) && Complete(cells, schema, plan) && InRange(order, schema) && k <= |order|
    ensures var items := Items(order, cells, schema, plan);
            EncodeDense(cells, schema, plan, order, k, Body(items[..k])) == Ok(Body(items))
    decreases |order| - k
  {
    hide *;
    var items := Items(order, cells, schema, plan);
    if k == |order| {
      assert items[..k] == items;
      DenseEnd(cells, schema, plan, order, Body(items));
    } else {
      BodySnoc(items, k);
      ValidFront(items, k);
      DenseStep(cells, schema, plan, order, k, Body(items[..k]));
      EncodeDenseIsRun(cells, schema, plan, order, k + 1);
    }
  }

  lemma {:induction false} ValidFront(items: seq<Item>, k: nat)
    requires Valid(items) && k <= |items|
    ensures Valid(items[..k])
  {
  }

  lemma {:induction false} DenseEnd(cells: Cells, schema: Schema, plan: Plan, order: seq<nat>, body: Bytes)
    ensures EncodeDense(cells, schema, plan, order, |order|, body) == Ok(body)
  {
  }

  /** Cell `k` pads the body and appends its item. */
  lemma {:induction false} DenseStep(cells: Cells, schema: Schema, plan: Plan, order: seq<nat>, k: nat, body: Bytes)
    requires Typed(schema, plan) && Complete(cells, schema, plan) && InRange(order, schema) && k < |order|
    ensures var item := Items(order, cells, schema, plan)[k];
            EncodeDense(cells, schema, plan, order, k, body) ==
            EncodeDense(cells, schema, plan, order, k + 1, PadTo(body, item.align) + item.bytes)
  {
    hide CellItem, WordItem, RoundUp, PadTo, BoolSlots, Lookup, SlotTyped, CellFits;
    PadOne(body);
    if !plan.InWord(order[k]) {
      FittingCellEncodes(Lookup(cells, order[k]).value, order[k], schema, plan, 0);
    }
  }

  // ── The walk over the run ─────────────────────────────────────────────────

  /** The cell that carries a slot: the first bool for every packed bool. */
  function Owner(slot: nat, plan: Plan): nat
  {
    if plan.InWord(slot) && |plan.boolSlots| > 0 then plan.boolSlots[0] else slot
  }

  lemma {:induction false} OwnerIs(slot: nat, fi: nat, plan: Plan)
    ensures plan.InWord(fi) ==> (plan.FirstBool() == Some(fi) && slot in plan.boolSlots <==> fi == Owner(slot, plan))
    ensures !plan.InWord(fi) ==> (fi == slot <==> fi == Owner(slot, plan))
  {
  }

  /** The byte of the shared word that holds a packed bool; zero for any other slot. */
  function WordByte(slot: nat, plan: Plan): nat
  {
    if plan.InWord(slot) then Position(plan.boolSlots, slot) / 8 else 0
  }

  /**
   The shared word, when `pos` bytes are written before it, suits the reader's formula: it is of 1, 2, 4 or 8
   bytes, or the remainders of `pos` happen to suit its size.
   */
  predicate WordInStep(pos: nat, plan: Plan) { AgreesAt(pos, plan.BoolWordBytes()) }

  lemma {:induction false} InStepIs(pos: nat, plan: Plan)
    requires plan.packed && 1 <= |plan.boolSlots| <= 64
    ensures plan.BoolWordBytes() >= 1
    ensures AlignTo(pos, plan.BoolWordBytes()) == RoundUp(pos, plan.BoolWordBytes()) <==> WordInStep(pos, plan)
  {
    hide AlignTo, RoundUp, AgreesAt;
    AgreesExactly(pos, plan.BoolWordBytes());
  }

  lemma {:induction false} WordOkInStep(pos: nat, plan: Plan)
    requires WordOk(plan) && plan.packed && |plan.boolSlots| > 0
    ensures WordInStep(pos, plan)
  {
  }

  /** The word, if cell `k` is the word, is in step. */
  ghost predicate CellInStep(order: seq<nat>, items: seq<Item>, plan: Plan, k: nat)
    requires Valid(items) && k < |order| == |items|
  {
    plan.InWord(order[k]) && plan.FirstBool() == Some(order[k]) ==>
      plan.BoolWordBytes() >= 1 && WordInStep(|Body(items[..k])|, plan)
  }

  /** In step with the writer up to cell `j`, the walk from cell `k` becomes the walk from cell `j`. */
  lemma {:induction false} WalkReaches(data: Bytes, base: nat, slot: nat, cells: Cells, schema: Schema, plan: Plan,
      order: seq<nat>, k: nat, j: nat)
    requires Typed(schema, plan) && Complete(cells, schema, plan) && InRange(order, schema) && k <= j <= |order|
    requires forall i :: k <= i < j ==> order[i] != Owner(slot, plan) && CellInStep(order, Items(order, cells, schema, plan), plan, i)
    requires At(data, base, Body(Items(order, cells, schema, plan)))
    ensures var items := Items(order, cells, schema, plan);
            Walk(data, base, slot, schema, plan, order, k, |Body(items[..k])|) ==
            Walk(data, base, slot, schema, plan, order, j, |Body(items[..j])|)
    decreases j - k
  {
    if k < j {
      hide Body, Start, AlignTo, Advance, CellOffset, At, Owner, Typed, Complete, Plan.InWord, Plan.FirstBool,
           PastBoolWord, CellInStep;
      OwnerIs(slot, order[k], plan);
      WalkStep(data, base, cells, schema, plan, order, k);
      WalkReaches(data, base, slot, cells, schema, plan, order, k + 1, j);
    }
  }

  /** What the walk answers when cell `k` carries the slot. */
  lemma {:induction false} WalkStops(slot: nat, cells: Cells, schema: Schema, plan: Plan, order: seq<nat>, k: nat)
    requires Typed(schema, plan) && Complete(cells, schema, plan) && InRange(order, schema)
    requires k < |order| && order[k] == Owner(slot, plan)
    ensures var items := Items(order, cells, schema, plan);
            var pos := |Body(items[..k])|;
            if plan.InWord(order[k]) then
              && slot in plan.boolSlots && plan.FirstBool() == Some(order[k]) && plan.BoolWordBytes() >= 1
              && (AlignTo(pos, plan.BoolWordBytes()) == Start(items, k) <==> WordInStep(pos, plan))
              && WordByte(slot, plan) == Position(plan.boolSlots, slot) / 8
            else order[k] == slot && CellOffset(pos, slot, schema, plan) == Start(items, k) && WordByte(slot, plan) == 0
  {
    hide Body, CellItem, RoundUp, PadTo, BoolSlots, Lookup, SlotTyped, CellFits, AlignTo, CellOffset, Position,
         WordInStep;
    var items := Items(order, cells, schema, plan);
    var fi, pos := order[k], |Body(items[..k])|;
    OwnerIs(slot, fi, plan);
    if plan.InWord(fi) {
      InStepIs(pos, plan);
    } else {
      FittingCellEncodes(Lookup(cells, fi).value, fi, schema, plan, pos);
    }
  }

  /**
   The walk over a written body stops at the start of the slot's cell, for a packed bool exactly when
   the shared word was written where the reader's alignment formula looks for it.
   */
  lemma {:induction false} WalkFindsCell(data: Bytes, base: nat, slot: nat, cells: Cells, schema: Schema,
      plan: Plan, order: seq<nat>, j: nat)
    requires Typed(schema, plan) && Complete(cells, schema, plan) && InRange(order, schema) && Distinct(order)
    requires j < |order| && order[j] == Owner(slot, plan)
    requires At(data, base, Body(Items(order, cells, schema, plan)))
    requires forall i :: 0 <= i < j ==> CellInStep(order, Items(order, cells, schema, plan), plan, i)
    ensures var items := Items(order, cells, schema, plan);
            Walk(data, base, slot, schema, plan, order, 0, 0) == Ok(Some(base + Start(items, j) + WordByte(slot, plan)))
            <==> CellInStep(order, items, plan, j)
  {
    hide Start, AlignTo, Advance, CellOffset, At, Owner, WordByte, Typed, Complete, PastBoolWord, Body, WordInStep,
         Plan.BoolWordBytes;
    var items := Items(order, cells, schema, plan);
    EmptyBody(items);
    WalkReaches(data, base, slot, cells, schema, plan, order, 0, j);
    WalkStops(slot, cells, schema, plan, order, j);
  }

  lemma {:induction false} EmptyBody(items: seq<Item>)
    requires Valid(items)
    ensures |Body(items[..0])| == 0
  {
  }

  /** Past cell `k`, the walk is still in step with the writer. */
  lemma {:induction false} WalkStep(data: Bytes, base: nat, cells: Cells, schema: Schema, plan: Plan,
      order: seq<nat>, k: nat)
    requires Typed(schema, plan) && Complete(cells, schema, plan) && InRange(order, schema) && k < |order|
    requires At(data, base, Body(Items(order, cells, schema, plan)))
    requires CellInStep(order, Items(order, cells, schema, plan), plan, k)
    ensures var items := Items(order, cells, schema, plan);
            var fi, pos, next := order[k], |Body(items[..k])|, |Body(items[..k + 1])|;
            if plan.InWord(fi) then next == if plan.FirstBool() == Some(fi) then PastBoolWord(pos, plan) else pos
            else Advance(data, base, pos, fi, schema, plan) == Ok(next)
  {
    hide Body, CellItem, PadTo, BoolSlots, Lookup, SlotTyped, CellFits, AlignTo, Advance, CellOffset, RoundUp, At,
         WordInStep;
    var items := Items(order, cells, schema, plan);
    var fi, pos := order[k], |Body(items[..k])|;
    BodySnoc(items, k);
    PadOneNat(pos);
    if plan.InWord(fi) { InStepIs(pos, plan); }
    if !plan.InWord(fi) {
      ItemAt(data, base, items, k);
      FittingCellEncodes(Lookup(cells, fi).value, fi, schema, plan, pos);
      AdvancePastCell(data, base, pos, Lookup(cells, fi).value, fi, schema, plan);
    }
  }

  // ── The walk out of step ──────────────────────────────────────────────────

  /**
   The reader's position before cell `k`, in step with the writer or not. Fixed cells move it whatever bytes
   they hold; a string moves it as written if the reader is in step, and by bytes of other cells if not.
   */
  function Tracked(cells: Cells, schema: Schema, plan: Plan, order: seq<nat>, k: nat): Option<nat>
    requires Typed(schema, plan) && Complete(cells, schema, plan) && InRange(order, schema) && k <= |order|
  {
    if k == 0 then Some(0)
    else
      var pos :- Tracked(cells, schema, plan, order, k - 1);
      var fi, items := order[k - 1], Items(order, cells, schema, plan);
      if plan.InWord(fi) then Some(if plan.FirstBool() == Some(fi) then PastBoolWord(pos, plan) else pos)
      else if !IsVar(schema.sigils[fi]) then Some(AdvanceFixed(pos, fi, schema, plan))
      else if schema.IsPromoted(fi) then Some(AlignTo(pos, 2) + 2)
      else if pos == |Body(items[..k - 1])| then Some(|Body(items[..k])|)
      else None
  }

  lemma {:induction false} TrackStep(data: Bytes, base: nat, cells: Cells, schema: Schema, plan: Plan,
      order: seq<nat>, k: nat)
    requires Typed(schema, plan) && Complete(cells, schema, plan) && InRange(order, schema) && k < |order|
    requires At(data, base, Body(Items(order, cells, schema, plan))) && Tracked(cells, schema, plan, order, k + 1).Some?
    ensures order[k] < |schema.sigils| && Tracked(cells, schema, plan, order, k).Some?
    ensures var fi, pos, next := order[k], Tracked(cells, schema, plan, order, k).value, Tracked(cells, schema, plan, order, k + 1).value;
            if plan.InWord(fi) then next == if plan.FirstBool() == Some(fi) then PastBoolWord(pos, plan) else pos
            else Advance(data, base, pos, fi, schema, plan) == Ok(next)
  {
    hide Typed, Complete, Body, AlignTo, At, Plan.BoolWordBytes, Plan.Width, PastStrCell, StrCellLen, BoolSlots;
    var fi := order[k];
    if !plan.InWord(fi) && IsVar(schema.sigils[fi]) && !schema.IsPromoted(fi) {
      hide Advance;
      WalkStep(data, base, cells, schema, plan, order, k);
    }
  }

  /** The walk from cell `k` becomes the walk from cell `j`, at the tracked positions. */
  lemma {:induction false} TrackReaches(data: Bytes, base: nat, slot: nat, cells: Cells, schema: Schema, plan: Plan,
      order: seq<nat>, k: nat, j: nat)
    requires Typed(schema, plan) && Complete(cells, schema, plan) && InRange(order, schema) && k <= j <= |order|
    requires forall i :: k <= i < j ==> order[i] != Owner(slot, plan)
    requires At(data, base, Body(Items(order, cells, schema, plan))) && Tracked(cells, schema, plan, order, j).Some?
    ensures Tracked(cells, schema, plan, order, k).Some?
    ensures Walk(data, base, slot, schema, plan, order, k, Tracked(cells, schema, plan, order, k).value) ==
            Walk(data, base, slot, schema, plan, order, j, Tracked(cells, schema, plan, order, j).value)
    decreases j - k
  {
    hide *;
    if k < j {
      TrackReaches(data, base, slot, cells, schema, plan, order, k + 1, j);
      TrackStep(data, base, cells, schema, plan, order, k);
      WalkOn(data, base, slot, schema, plan, order, k, Tracked(cells, schema, plan, order, k).value,
        Tracked(cells, schema, plan, order, k + 1).value);
    }
  }

  /** The walk goes on past a cell that is not the one looked for. */
  lemma {:induction false} WalkOn(data: Bytes, base: nat, slot: nat, schema: Schema, plan: Plan, order: seq<nat>,
      k: nat, pos: nat, next: nat)
    requires InRange(order, schema) && k < |order| && order[k] != Owner(slot, plan) && order[k] < |schema.sigils|
    requires var fi := order[k];
             if plan.InWord(fi) then next == if plan.FirstBool() == Some(fi) then PastBoolWord(pos, plan) else pos
             else Advance(data, base, pos, fi, schema, plan) == Ok(next)
    ensures Walk(data, base, slot, schema, plan, order, k, pos) == Walk(data, base, slot, schema, plan, order, k + 1, next)
  {
    hide AlignTo, Advance, CellOffset, Owner, Plan.InWord, Plan.FirstBool, PastBoolWord;
    OwnerIs(slot, order[k], plan);
  }

  /** Where the reader finds a slot whose cell it comes to at `pos`. */
  function FoundAt(pos: nat, slot: nat, schema: Schema, plan: Plan): nat
    requires slot < |schema.sigils|
  {
    if plan.InWord(slot) then AlignTo(pos, plan.BoolWordBytes()) + WordByte(slot, plan) else CellOffset(pos, slot, schema, plan)
  }

  /** The walk answers with the place that the tracked position leads to, in step or not. */
  lemma {:induction false} WalkTracks(data: Bytes, base: nat, slot: nat, cells: Cells, schema: Schema, plan: Plan,
      order: seq<nat>, j: nat)
    requires Typed(schema, plan) && Complete(cells, schema, plan) && InRange(order, schema) && Distinct(order)
    requires j < |order| && order[j] == Owner(slot, plan) && slot < schema.Count()
    requires At(data, base, Body(Items(order, cells, schema, plan))) && Tracked(cells, schema, plan, order, j).Some?
    ensures Walk(data, base, slot, schema, plan, order, 0, 0) ==
            Ok(Some(base + FoundAt(Tracked(cells, schema, plan, order, j).value, slot, schema, plan)))
  {
    hide Body, AlignTo, Advance, CellOffset, At, Typed, Complete, Tracked, Plan.BoolWordBytes;
    assert Tracked(cells, schema, plan, order, 0) == Some(0) by { TrackStarts(cells, schema, plan, order); }
    OwnerIs(slot, order[j], plan);
    TrackReaches(data, base, slot, cells, schema, plan, order, 0, j);
  }

  lemma {:induction false} TrackStarts(cells: Cells, schema: Schema, plan: Plan, order: seq<nat>)
    requires Typed(schema, plan) && Complete(cells, schema, plan) && InRange(order, schema)
    ensures Tracked(cells, schema, plan, order, 0) == Some(0)
  {
  }
}
