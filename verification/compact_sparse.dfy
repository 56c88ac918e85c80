/** Sparse record bodies: the present cells in schema order, found through a bitmask and an offset table. */
module CompactSparse {
  import opened Bytes
  import opened Align
  import opened Bitmask
  import opened CompactSchema
  import opened CellRun
  import opened DenseWalk
  import opened WireLength
  import opened CompactCells
  import opened CompactDense

  /** `sparse_offset_table_slots`: one entry a present slot, but a single one for all the packed bools. */
  function TableSlots(slots: seq<nat>, plan: Plan, added: bool): (r: seq<nat>)
  {
    if |slots| == 0 then []
    else if plan.InWord(slots[0]) then
      (if added then TableSlots(slots[1..], plan, true) else [slots[0]] + TableSlots(slots[1..], plan, true))
    else [slots[0]] + TableSlots(slots[1..], plan, added)
  }

  /** `sparse_cell_body_start`. An unpromoted keyword falls through to the 8-byte default. */
  function CellBodyStart(len: nat, fi: nat, schema: Schema, plan: Plan): nat
    requires fi < |schema.sigils|
  {
    var sig := schema.sigils[fi];
    if sig == SIGIL_INT || sig == SIGIL_FLOAT || (sig == SIGIL_BOOL && !plan.packed) then AlignTo(len, plan.Width(schema, fi))
    else if sig == SIGIL_TIME then AlignTo(len, 8)
    else if (sig == SIGIL_KEYWORD || IsVar(sig)) && schema.IsPromoted(fi) then AlignTo(len, 2)
    else if IsVar(sig) then len
    else AlignTo(len, 8)
  }

  /** The word of a sparse record holds the present bools only. */
  function SparseBits(cells: Cells, slots: seq<nat>, present: seq<bool>): (bits: seq<bool>)
    ensures |bits| == |slots|
  {
    seq(|slots|, j requires 0 <= j < |slots| =>
      slots[j] < |present| && present[slots[j]] && Lookup(cells, slots[j]) == Some(Bool(true)))
  }

  function SparseWord(cells: Cells, plan: Plan, present: seq<bool>): (item: Item)
    requires plan.packed && 0 < |plan.boolSlots| <= 64
    ensures item.Valid() && item.align == |item.bytes| == plan.BoolWordBytes()
  {
    Item(plan.BoolWordBytes(), Le(BitsValue(SparseBits(cells, plan.boolSlots, present)), 8)[..plan.BoolWordBytes()])
  }

  /** The starts recorded for the present bools: the unpadded body length plus the byte of the bool's bit. */
  function WordStarts(starts: map<nat, nat>, slots: seq<nat>, present: seq<bool>, base: nat, bi: nat)
    : (r: map<nat, nat>)
    decreases |slots| - bi
  {
    if bi >= |slots| then starts
    else WordStarts(if slots[bi] < |present| && present[slots[bi]] then starts[slots[bi] := base + bi / 8] else starts,
                    slots, present, base, bi + 1)
  }

  datatype SparseBody = SparseBody(bytes: Bytes, starts: map<nat, nat>)

  /** `encode_sparse_body`, from slot `fi`. */
  function EncodeSparse(cells: Cells, schema: Schema, present: seq<bool>, plan: Plan, fi: nat, body: Bytes,
      starts: map<nat, nat>, emitted: bool): (r: Result<SparseBody>)
    requires schema.Shaped() && |present| == schema.Count() && fi <= |present|
    decreases |present| - fi
  {
    if fi == |present| then Ok(SparseBody(body, starts))
    else if !present[fi] then EncodeSparse(cells, schema, present, plan, fi + 1, body, starts, emitted)
    else if plan.InWord(fi) then
      if emitted then EncodeSparse(cells, schema, present, plan, fi + 1, body, starts, emitted)
      else if |plan.boolSlots| > 64 then Err(Panic)
      else
        EncodeSparse(cells, schema, present, plan, fi + 1, Append(body, SparseWord(cells, plan, present)),
                     WordStarts(starts[fi := |body|], plan.boolSlots, present, |body|, 0), true)
    else
      match Lookup(cells, fi)
      case None => Err(Panic)
      case Some(cell) =>
        var start := CellBodyStart(|body|, fi, schema, plan);
        var padded := body + Zeros(if |body| < start then start - |body| else 0);
        var item :- CellItem(fi, cell, schema, plan);
        EncodeSparse(cells, schema, present, plan, fi + 1, Append(padded, item), starts[fi := start], emitted)
  }

  method EncodeSparseBody(cells: Cells, schema: Schema, present: seq<bool>, plan: Plan) returns (r: Result<SparseBody>)
    requires schema.Shaped() && |present| == schema.Count()
    ensures r == EncodeSparse(cells, schema, present, plan, 0, [], map[], false)
  {
    hide Lookup, CellBodyStart, CellItem, BoolSlots, RoundUp, Le, BitsValue, SparseBits;
    var body: Bytes := [];
    var starts: map<nat, nat> := map[];
    var emitted := false;
    for fi := 0 to |present|
      invariant EncodeSparse(cells, schema, present, plan, 0, [], map[], false) ==
                EncodeSparse(cells, schema, present, plan, fi, body, starts, emitted)
    {
      if !present[fi] { continue; }
      if plan.InWord(fi) {
        if !emitted {
          if |plan.boolSlots| > 64 { return Err(Panic); }
          starts := starts[fi := |body|];
          ghost var before := starts;
          for bi := 0 to |plan.boolSlots|
            invariant WordStarts(before, plan.boolSlots, present, |body|, 0) == WordStarts(starts, plan.boolSlots, present, |body|, bi)
          {
            var bs := plan.boolSlots[bi];
            if bs < |present| && present[bs] {
              starts := starts[bs := |body| + bi / 8];
            }
          }
          var padded := PadLoop(body, plan.BoolWordBytes());
          body := padded + SparseWord(cells, plan, present).bytes;
          emitted := true;
        }
        continue;
      }
      var cell := Lookup(cells, fi);
      if cell.None? { return Err(Panic); }
      var start := CellBodyStart(|body|, fi, schema, plan);
      var padded := ZeroLoop(body, start);
      var appended := AppendCell(padded, fi, cell.value, schema, plan);
      if appended.Err? { return Err(appended.error); }
      starts := starts[fi := start];
      body := appended.value;
    }
    r := Ok(SparseBody(body, starts));
  }

  method ZeroLoop(body: Bytes, start: nat) returns (r: Bytes)
    ensures r == body + Zeros(if |body| < start then start - |body| else 0)
  {
    r := body;
    while |r| < start
      invariant |body| <= |r| && (|r| <= start || r == body)
      invariant r == body + Zeros(|r| - |body|)
    {
      assert Zeros(|r| - |body|) + [0] == Zeros(|r| + 1 - |body|);
      r := r + [0];
    }
  }

  // ── The body as a run of cells, one item a slot ───────────────────────────

  /** Every present slot has a cell of its column's type. */
  ghost predicate Fits(cells: Cells, schema: Schema, present: seq<bool>, plan: Plan)
    requires schema.Shaped()
  {
    |present| == schema.Count() &&
    forall s :: 0 <= s < |present| && present[s] ==>
      Lookup(cells, s).Some? && CellFits(Lookup(cells, s).value, s, schema, plan)
  }

  /** The first present packed bool at or after `i`: the slot the shared offset entry is filed under. */
  function FirstPresentBool(present: seq<bool>, plan: Plan, i: nat): (s: Option<nat>)
    requires i <= |present|
    ensures s.Some? ==> i <= s.value < |present| && present[s.value] && plan.InWord(s.value)
    ensures s.Some? ==> forall j :: i <= j < s.value ==> !(present[j] && plan.InWord(j))
    ensures s.None? ==> forall j :: i <= j < |present| ==> !(present[j] && plan.InWord(j))
    decreases |present| - i
  {
    if i == |present| then None
    else if present[i] && plan.InWord(i) then Some(i)
    else FirstPresentBool(present, plan, i + 1)
  }

  function SparseAlign(fi: nat, item: Item, schema: Schema): nat
    requires fi < |schema.sigils|
  {
    if schema.sigils[fi] == SIGIL_KEYWORD then 8 else item.align
  }

  function SparseItemOf(fi: nat, cells: Cells, schema: Schema, present: seq<bool>, plan: Plan): (item: Item)
    requires Typed(schema, plan) && Fits(cells, schema, present, plan) && fi < |present|
    ensures item.Valid()
  {
    if !present[fi] then Item(1, [])
    else if plan.InWord(fi) then
      (if FirstPresentBool(present, plan, 0) == Some(fi) then SparseWord(cells, plan, present) else Item(1, []))
    else
      FittingCellEncodes(Lookup(cells, fi).value, fi, schema, plan, 0);
      var item := CellItem(fi, Lookup(cells, fi).value, schema, plan).value;
      Item(SparseAlign(fi, item, schema), item.bytes)
  }

  function SparseItems(cells: Cells, schema: Schema, present: seq<bool>, plan: Plan): (items: seq<Item>)
    requires Typed(schema, plan) && Fits(cells, schema, present, plan)
    ensures |items| == |present| && Valid(items)
    ensures forall j :: 0 <= j < |items| ==> items[j] == SparseItemOf(j, cells, schema, present, plan)
  {
    seq(|present|, j requires 0 <= j < |present| => SparseItemOf(j, cells, schema, present, plan))
  }

  /** A typed cell starts where the recorded start says, and its own padding adds nothing. */
  lemma {:induction false} CellStartsAligned(body: Bytes, cell: CompactCell, fi: nat, schema: Schema, plan: Plan)
    requires Typed(schema, plan) && fi < schema.Count() && CellFits(cell, fi, schema, plan)
    requires !plan.InWord(fi) && CellItem(fi, cell, schema, plan).Ok?
    ensures var item := CellItem(fi, cell, schema, plan).value;
            var start := CellBodyStart(|body|, fi, schema, plan);
            && SparseAlign(fi, item, schema) >= 1
            && start == RoundUp(|body|, SparseAlign(fi, item, schema))
            && Append(body + Zeros(start - |body|), item) == Append(body, Item(SparseAlign(fi, item, schema), item.bytes))
  {
    hide RoundUp, Zeros, AlignTo, CellItem, CellBodyStart, SparseAlign, PadTo;
    var item := CellItem(fi, cell, schema, plan).value;
    StartIsAligned(|body|, cell, fi, schema, plan);
    AlignOfItem(cell, fi, schema, plan);
    PaddedOnce(body, CellBodyStart(|body|, fi, schema, plan), SparseAlign(fi, item, schema), item.align);
  }

  lemma {:induction false} AlignOfItem(cell: CompactCell, fi: nat, schema: Schema, plan: Plan)
    requires Typed(schema, plan) && fi < schema.Count() && CellFits(cell, fi, schema, plan)
    requires !plan.InWord(fi) && CellItem(fi, cell, schema, plan).Ok?
    ensures var item := CellItem(fi, cell, schema, plan).value;
            SparseAlign(fi, item, schema) == item.align || (SparseAlign(fi, item, schema) == 8 && item.align == 2)
  {
    assert SlotTyped(fi, schema, plan);
  }

  lemma {:induction false} PaddedOnce(body: Bytes, start: nat, a: nat, align: nat)
    requires a >= 1 && (a == align || (a == 8 && align == 2)) && start == RoundUp(|body|, a)
    ensures PadTo(body + Zeros(start - |body|), align) == PadTo(body, a)
  {
    hide *;
    PadIs(body, a);
    if a != align { EightIsEven(start); }
    PaddedTwice(body + Zeros(start - |body|), align);
  }

  lemma {:induction false} PadIs(body: Bytes, a: nat)
    requires a >= 1
    ensures PadTo(body, a) == body + Zeros(RoundUp(|body|, a) - |body|)
  {
  }

  lemma {:induction false} EightIsEven(n: nat)
    requires n % 8 == 0
    ensures n % 2 == 0
  {
    ModUnique(n, 2, 4 * (n / 8), 0);
  }

  lemma {:induction false} StartIsAligned(len: nat, cell: CompactCell, fi: nat, schema: Schema, plan: Plan)
    requires Typed(schema, plan) && fi < schema.Count() && CellFits(cell, fi, schema, plan)
    requires !plan.InWord(fi) && CellItem(fi, cell, schema, plan).Ok?
    ensures SparseAlign(fi, CellItem(fi, cell, schema, plan).value, schema) >= 1
    ensures CellBodyStart(len, fi, schema, plan) == RoundUp(len, SparseAlign(fi, CellItem(fi, cell, schema, plan).value, schema))
  {
    hide RoundUp, AlignTo, CellItem;
    assert SlotTyped(fi, schema, plan);
    FittingCellEncodes(cell, fi, schema, plan, len);
    SmallPowers();
    AlignsAtPowers(len, 8);
  }

  lemma {:induction false} PaddedTwice(b: Bytes, a: nat)
    requires a >= 1 && |b| % a == 0
    ensures PadTo(b, a) == b
  {
    RoundUpUnique(|b|, a, |b|);
  }

  /** What the offset table files under a slot: the cell's start, or, for the word, its unpadded position. */
  ghost predicate Recorded(starts: map<nat, nat>, items: seq<Item>, present: seq<bool>, plan: Plan, s: nat)
    requires Valid(items) && s < |items| == |present|
  {
    && (present[s] && !plan.InWord(s) ==> s in starts && starts[s] == Start(items, s))
    && (FirstPresentBool(present, plan, 0) == Some(s) ==> s in starts && starts[s] == WordStart(items, plan, s))
  }

  /** The start recorded for the shared word when its first present bool is `s`. */
  function WordStart(items: seq<Item>, plan: Plan, s: nat): nat
    requires Valid(items) && s < |items| && s in plan.boolSlots
  {
    |Body(items[..s])| + Position(plan.boolSlots, s) / 8
  }

  lemma {:induction false} WordStartsIs(starts: map<nat, nat>, slots: seq<nat>, present: seq<bool>, base: nat,
      bi: nat, s: nat)
    requires forall i, j :: 0 <= i < j < |slots| ==> slots[i] < slots[j]
    ensures s in slots && s < |present| && present[s] && bi <= Position(slots, s) ==>
              s in WordStarts(starts, slots, present, base, bi) &&
              WordStarts(starts, slots, present, base, bi)[s] == base + Position(slots, s) / 8
    ensures s !in slots || Position(slots, s) < bi ==>
              (s in WordStarts(starts, slots, present, base, bi) <==> s in starts)
    ensures (s !in slots || Position(slots, s) < bi) && s in starts ==>
              WordStarts(starts, slots, present, base, bi)[s] == starts[s]
    decreases |slots| - bi
  {
    if bi < |slots| {
      var next := if slots[bi] < |present| && present[slots[bi]] then starts[slots[bi] := base + bi / 8] else starts;
      WordStartsIs(next, slots, present, base, bi + 1, s);
      if slots[bi] == s {
        assert Position(slots, s) == bi;
      }
    }
  }

  /** The encoder writes the run of items and records every start, for typed cells. */
  lemma {:induction false} EncodeSparseIsRun(cells: Cells, schema: Schema, present: seq<bool>, plan: Plan, fi: nat,
      starts: map<nat, nat>, emitted: bool, s: nat)
    requires Typed(schema, plan) && Fits(cells, schema, present, plan) && fi <= |present| && s < |present|
    requires emitted == (FirstPresentBool(present, plan, 0).Some? && FirstPresentBool(present, plan, 0).value < fi)
    requires s < fi ==> Recorded(starts, SparseItems(cells, schema, present, plan), present, plan, s)
    ensures var items := SparseItems(cells, schema, present, plan);
            var r := EncodeSparse(cells, schema, present, plan, fi, Body(items[..fi]), starts, emitted);
            r.Ok? && r.value.bytes == Body(items) && Recorded(r.value.starts, items, present, plan, s)
    decreases |present| - fi
  {
    var items := SparseItems(cells, schema, present, plan);
    if fi == |present| {
      assert items[..fi] == items;
    } else {
      hide EncodeSparse, Body, Recorded, FirstPresentBool, Typed, Fits, SparseItems;
      var starts', emitted' := SparseStep(cells, schema, present, plan, fi, starts, emitted, s);
      EncodeSparseIsRun(cells, schema, present, plan, fi + 1, starts', emitted', s);
    }
  }

  /** One slot: the encoder and the run grow by the same bytes, and the slot's start is recorded. */
  lemma {:induction false} SparseStep(cells: Cells, schema: Schema, present: seq<bool>, plan: Plan, fi: nat,
      starts: map<nat, nat>, emitted: bool, s: nat) returns (starts': map<nat, nat>, emitted': bool)
    requires Typed(schema, plan) && Fits(cells, schema, present, plan) && fi < |present| && s < |present|
    requires emitted == (FirstPresentBool(present, plan, 0).Some? && FirstPresentBool(present, plan, 0).value < fi)
    requires s < fi ==> Recorded(starts, SparseItems(cells, schema, present, plan), present, plan, s)
    ensures emitted' == (FirstPresentBool(present, plan, 0).Some? && FirstPresentBool(present, plan, 0).value < fi + 1)
    ensures s < fi + 1 ==> Recorded(starts', SparseItems(cells, schema, present, plan), present, plan, s)
    ensures var items := SparseItems(cells, schema, present, plan);
            EncodeSparse(cells, schema, present, plan, fi, Body(items[..fi]), starts, emitted) ==
            EncodeSparse(cells, schema, present, plan, fi + 1, Body(items[..fi + 1]), starts', emitted')
  {
    hide Body, Start, CellItem, SparseWord, WordStart, WordStarts, Lookup, SlotTyped, CellFits, PadTo, RoundUp,
         BoolSlots, FirstPresentBool;
    var items := SparseItems(cells, schema, present, plan);
    var body := Body(items[..fi]);
    BodySnoc(items, fi);
    starts', emitted' := starts, emitted;
    if !present[fi] || (plan.InWord(fi) && emitted) {
      PadOne(body);
    } else if plan.InWord(fi) {
      starts', emitted' := WordStarts(starts[fi := |body|], plan.boolSlots, present, |body|, 0), true;
      WordRecorded(starts, items, schema, present, plan, fi, s);
    } else {
      var cell := Lookup(cells, fi).value;
      FittingCellEncodes(cell, fi, schema, plan, 0);
      CellStartsAligned(body, cell, fi, schema, plan);
      starts' := starts[fi := CellBodyStart(|body|, fi, schema, plan)];
      CellRecorded(starts, items, schema, present, plan, fi, s, starts'[fi]);
    }
  }

  lemma {:induction false} WordRecorded(starts: map<nat, nat>, items: seq<Item>, schema: Schema, present: seq<bool>,
      plan: Plan, fi: nat, s: nat)
    requires Valid(items) && fi < |items| == |present| && s < |present| && plan.boolSlots == BoolSlots(schema)
    requires present[fi] && plan.InWord(fi) && FirstPresentBool(present, plan, 0) == Some(fi)
    requires s < fi ==> Recorded(starts, items, present, plan, s)
    ensures var base := |Body(items[..fi])|;
            s < fi + 1 ==> Recorded(WordStarts(starts[fi := base], plan.boolSlots, present, base, 0), items, present, plan, s)
  {
    hide Body, Start;
    var base := |Body(items[..fi])|;
    WordStartsIs(starts[fi := base], plan.boolSlots, present, base, 0, s);
  }

  lemma {:induction false} CellRecorded(starts: map<nat, nat>, items: seq<Item>, schema: Schema, present: seq<bool>,
      plan: Plan, fi: nat, s: nat, start: nat)
    requires Valid(items) && fi < |items| == |present| && s < |present|
    requires present[fi] && !plan.InWord(fi) && start == Start(items, fi)
    requires s < fi ==> Recorded(starts, items, present, plan, s)
    ensures s < fi + 1 ==> Recorded(starts[fi := start], items, present, plan, s)
  {
  }
}
