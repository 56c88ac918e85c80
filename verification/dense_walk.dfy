/**
 How a reader finds a cell of a dense record: a walk over the cells in wire order, and the table of fixed
 offsets that replaces it when the cells are reordered. The table is a refinement of the walk.
 */
module DenseWalk {
  import opened Bytes
  import opened Align
  import opened CompactSchema
  import opened WireOrder

  /** `read_str_cell_len` */
  function StrCellLen(data: Bytes, off: nat, prefix: nat): (len: Result<nat>)
  {
    if prefix == 2 || prefix == 4 then
      match ReadU(data, off, prefix)
      case None => Err(OutOfBounds)
      case Some(v) => Ok(v)
    else Err(OutOfBounds)
  }

  /** `advance_past_str_cell`: the cell is padded to a multiple of 8 from its own start. */
  function PastStrCell(pos: nat, payload: nat, prefix: nat): nat
  {
    pos + prefix + payload + (8 - (prefix + payload) % 8) % 8
  }

  function PastBoolWord(pos: nat, plan: Plan): nat
  {
    AlignTo(pos, plan.BoolWordBytes()) + plan.BoolWordBytes()
  }

  /** `advance_dense_past_cell_fixed` */
  function AdvanceFixed(pos: nat, fi: nat, schema: Schema, plan: Plan): nat
    requires fi < |schema.sigils|
  {
    var sig := schema.sigils[fi];
    var w := plan.Width(schema, fi);
    if plan.InWord(fi) then PastBoolWord(pos, plan)
    else if sig == SIGIL_INT || sig == SIGIL_FLOAT || (sig == SIGIL_BOOL && !plan.packed) then AlignTo(pos, w) + w
    else if sig == SIGIL_KEYWORD then AlignTo(pos, 2) + 2
    else AlignTo(pos, 8) + 8
  }

  /** `advance_dense_past_cell` */
  function Advance(data: Bytes, base: nat, pos: nat, fi: nat, schema: Schema, plan: Plan): (r: Result<nat>)
    requires fi < |schema.sigils|
  {
    var sig := schema.sigils[fi];
    var w := plan.Width(schema, fi);
    if plan.InWord(fi) then Ok(PastBoolWord(pos, plan))
    else if sig == SIGIL_INT || sig == SIGIL_FLOAT || (sig == SIGIL_BOOL && !plan.packed) then Ok(AlignTo(pos, w) + w)
    else if IsVar(sig) then
      if schema.IsPromoted(fi) then Ok(AlignTo(pos, 2) + 2)
      else
        var prefix := schema.StrLenPrefix(fi);
        if base + pos + prefix > |data| then Err(OutOfBounds)
        else
          var len :- StrCellLen(data, base + pos, prefix);
          Ok(PastStrCell(pos, len, prefix))
    else if sig == SIGIL_KEYWORD then Ok(AlignTo(pos, 2) + 2)
    else Ok(AlignTo(pos, 8) + 8)
  }

  /** Where the walk says the cell of `fi` starts, given the position before its padding. */
  function CellOffset(pos: nat, fi: nat, schema: Schema, plan: Plan): nat
    requires fi < |schema.sigils|
  {
    if schema.IsPromoted(fi) || schema.sigils[fi] == SIGIL_KEYWORD then AlignTo(pos, 2)
    else if IsVar(schema.sigils[fi]) then pos
    else AlignTo(pos, plan.Width(schema, fi))
  }

  ghost predicate InRange(order: seq<nat>, schema: Schema)
  {
    forall j :: 0 <= j < |order| ==> 0 <= order[j] < |schema.sigils|
  }

  /** The walking loop of `dense_field_offset`, from cell `k` of the order at body position `pos`. */
  function Walk(data: Bytes, base: nat, slot: nat, schema: Schema, plan: Plan, order: seq<nat>, k: nat, pos: nat)
    : (r: Result<Option<nat>>)
    requires InRange(order, schema) && k <= |order|
    decreases |order| - k
  {
    if k == |order| then Ok(None)
    else
      var fi := order[k];
      if plan.InWord(fi) then
        var first := plan.FirstBool() == Some(fi);
        if slot in plan.boolSlots && first then
          Ok(Some(base + AlignTo(pos, plan.BoolWordBytes()) + Position(plan.boolSlots, slot) / 8))
        else Walk(data, base, slot, schema, plan, order, k + 1, if first then PastBoolWord(pos, plan) else pos)
      else if fi == slot then Ok(Some(base + CellOffset(pos, fi, schema, plan)))
      else
        var next :- Advance(data, base, pos, fi, schema, plan);
        Walk(data, base, slot, schema, plan, order, k + 1, next)
  }

  // ── The precomputed table ─────────────────────────────────────────────────

  /** Every bool slot gets its byte of the word at `base`. */
  function SetBools(out: seq<Option<nat>>, slots: seq<nat>, base: nat, idx: nat): (r: seq<Option<nat>>)
    requires forall j :: 0 <= j < |slots| ==> slots[j] < |out|
    ensures |r| == |out|
    decreases |slots| - idx
  {
    if idx >= |slots| then out
    else SetBools(out[slots[idx] := Some(base + idx / 8)], slots, base, idx + 1)
  }

  ghost predicate BoolsInRange(plan: Plan, n: nat)
  {
    forall j :: 0 <= j < |plan.boolSlots| ==> plan.boolSlots[j] < n
  }

  /** `precompute_dense_fixed_offsets`, from cell `k`; stops at the first variable-length cell. */
  function Precompute(schema: Schema, plan: Plan, order: seq<nat>, k: nat, pos: nat, out: seq<Option<nat>>)
    : (r: (seq<Option<nat>>, Option<nat>))
    requires InRange(order, schema) && k <= |order| && |out| == |schema.sigils| && BoolsInRange(plan, |out|)
    ensures |r.0| == |out|
    decreases |order| - k
  {
    if k == |order| then (out, None)
    else
      var fi := order[k];
      if plan.InWord(fi) then
        if plan.FirstBool() == Some(fi) then
          var base := AlignTo(pos, plan.BoolWordBytes());
          Precompute(schema, plan, order, k + 1, base + plan.BoolWordBytes(), SetBools(out, plan.boolSlots, base, 0))
        else Precompute(schema, plan, order, k + 1, pos, out)
      else if IsVar(schema.sigils[fi]) then (out, Some(pos))
      else
        Precompute(schema, plan, order, k + 1, AdvanceFixed(pos, fi, schema, plan),
                   out[fi := Some(CellOffset(pos, fi, schema, plan))])
  }

  function NoOffsets(n: nat): (s: seq<Option<nat>>)
    ensures |s| == n && forall k :: 0 <= k < n ==> s[k] == None
  {
    seq(n, k => None)
  }

  lemma {:induction false} OrderInRange(schema: Schema, plan: Plan)
    requires schema.Shaped()
    ensures InRange(Order(schema, plan), schema)
  {
    if plan.reorder { OrderIsPermutation(schema, plan); }
  }

  /** The plan with the table that makes fixed cells O(1) when the cells are reordered. */
  datatype RowPlan = RowPlan(plan: Plan, fixed: Option<seq<Option<nat>>>, varStart: Option<nat>)

  /** `RowCellPlan::new` */
  function RowPlanOf(schema: Schema, flags: WireFlags): (rows: RowPlan)
    requires schema.Shaped()
    ensures rows.plan == PlanFor(schema, flags)
  {
    var plan := PlanFor(schema, flags);
    if plan.reorder && plan.denseAllowed then
      OrderInRange(schema, plan);
      assert forall j :: 0 <= j < |plan.boolSlots| ==> plan.boolSlots[j] in plan.boolSlots;
      var (out, start) := Precompute(schema, plan, Order(schema, plan), 0, 0, NoOffsets(schema.Count()));
      RowPlan(plan, Some(out), start)
    else RowPlan(plan, None, None)
  }

  /** The loop over the variable-length cells, which starts where the fixed cells end. */
  function VarWalk(data: Bytes, base: nat, slot: nat, schema: Schema, plan: Plan, order: seq<nat>, k: nat, pos: nat)
    : (r: Result<Option<nat>>)
    requires InRange(order, schema) && k <= |order|
    decreases |order| - k
  {
    if k == |order| then Ok(None)
    else if !IsVar(schema.sigils[order[k]]) then VarWalk(data, base, slot, schema, plan, order, k + 1, pos)
    else if order[k] == slot then Ok(Some(base + pos))
    else
      var next :- Advance(data, base, pos, order[k], schema, plan);
      VarWalk(data, base, slot, schema, plan, order, k + 1, next)
  }

  /** `dense_field_offset`: table, variable-length walk, or full walk. The body starts 9 bytes in. */
  function DenseFieldOffset(data: Bytes, obj: nat, slot: nat, schema: Schema, rows: RowPlan): (r: Result<Option<nat>>)
    requires schema.Shaped()
  {
    OrderInRange(schema, rows.plan);
    var base := obj + 9;
    var order := Order(schema, rows.plan);
    if rows.fixed.Some? && slot < |rows.fixed.value| && rows.fixed.value[slot].Some? then
      Ok(Some(base + rows.fixed.value[slot].value))
    else if rows.fixed.Some? && rows.varStart.Some? then
      VarWalk(data, base, slot, schema, rows.plan, order, 0, rows.varStart.value)
    else Walk(data, base, slot, schema, rows.plan, order, 0, 0)
  }

  // ── The table refines the walk ────────────────────────────────────────────

  lemma {:induction false} SetBoolsIs(out: seq<Option<nat>>, slots: seq<nat>, base: nat, idx: nat, s: nat)
    requires forall j :: 0 <= j < |slots| ==> slots[j] < |out|
    requires forall i, j :: 0 <= i < j < |slots| ==> slots[i] < slots[j]
    requires s < |out|
    ensures s in slots && idx <= Position(slots, s) ==>
              SetBools(out, slots, base, idx)[s] == Some(base + Position(slots, s) / 8)
    ensures (s in slots ==> Position(slots, s) < idx) ==> SetBools(out, slots, base, idx)[s] == out[s]
    decreases |slots| - idx
  {
    if idx < |slots| {
      SetBoolsIs(out[slots[idx] := Some(base + idx / 8)], slots, base, idx + 1, s);
      if slots[idx] == s {
        assert Position(slots, s) == idx;
      }
    }
  }

  /** Past the fixed cells the walk is in the same state as the variable-length loop. */
  function WalkTail(data: Bytes, base: nat, slot: nat, schema: Schema, plan: Plan, order: seq<nat>, kv: nat,
      start: Option<nat>)
    : Result<Option<nat>>
    requires InRange(order, schema) && kv <= |order|
  {
    match start
    case None => Ok(None)
    case Some(pos) => Walk(data, base, slot, schema, plan, order, kv, pos)
  }

  ghost predicate FixedThenVar(order: seq<nat>, schema: Schema, kv: nat)
  {
    InRange(order, schema) && kv <= |order| &&
    forall j :: 0 <= j < |order| ==> (IsVar(schema.sigils[order[j]]) <==> kv <= j)
  }

  /** The cells of a reordered record, as both loops assume them. */
  ghost predicate Reordered(schema: Schema, plan: Plan, order: seq<nat>, kv: nat)
  {
    PlanFits(plan, schema) && FixedThenVar(order, schema, kv) && Distinct(order) &&
    BoolsInRange(plan, |schema.sigils|) &&
    forall j :: 0 <= j < kv ==> plan.InWord(order[j]) ==> plan.FirstBool() == Some(order[j])
  }

  /**
   The table built from cell `k` on agrees with the walk from cell `k` on: an entry is the walk's answer,
   and a missing entry leaves the walk to the variable-length cells.
   */
  ghost predicate Agrees(data: Bytes, base: nat, slot: nat, schema: Schema, plan: Plan, order: seq<nat>, kv: nat,
      k: nat, pos: nat, out: seq<Option<nat>>)
    requires Reordered(schema, plan, order, kv) && k <= kv && |out| == |schema.sigils|
  {
    var (table, start) := Precompute(schema, plan, order, k, pos, out);
    Walk(data, base, slot, schema, plan, order, k, pos) ==
    if slot < |table| && table[slot].Some? then Ok(Some(base + table[slot].value))
    else WalkTail(data, base, slot, schema, plan, order, kv, start)
  }

  lemma {:induction false} TableAgrees(data: Bytes, base: nat, slot: nat, schema: Schema, plan: Plan,
      order: seq<nat>, kv: nat, k: nat, pos: nat, out: seq<Option<nat>>)
    requires Reordered(schema, plan, order, kv) && k <= kv && |out| == |schema.sigils|
    requires slot < |out| ==> out[slot] == None
    ensures Agrees(data, base, slot, schema, plan, order, kv, k, pos, out)
    decreases kv - k
  {
    if k < kv {
      hide SetBools, Order, FixedOrder, BoolSlots, Position, Agrees, AlignTo, AdvanceFixed, CellOffset,
           Plan.BoolWordBytes;
      if plan.InWord(order[k]) {
        var word := AlignTo(pos, plan.BoolWordBytes());
        var out' := SetBools(out, plan.boolSlots, word, 0);
        if slot < |out| { SetBoolsIs(out, plan.boolSlots, word, 0, slot); }
        if slot !in plan.boolSlots {
          TableAgrees(data, base, slot, schema, plan, order, kv, k + 1, word + plan.BoolWordBytes(), out');
        }
        WordStep(data, base, slot, schema, plan, order, kv, k, pos, out);
      } else {
        var next := AdvanceFixed(pos, order[k], schema, plan);
        if order[k] != slot {
          TableAgrees(data, base, slot, schema, plan, order, kv, k + 1, next,
                      out[order[k] := Some(CellOffset(pos, order[k], schema, plan))]);
        }
        CellStep(data, base, slot, schema, plan, order, kv, k, pos, out);
      }
    }
  }

  lemma {:induction false} WordStep(data: Bytes, base: nat, slot: nat, schema: Schema, plan: Plan, order: seq<nat>,
      kv: nat, k: nat, pos: nat, out: seq<Option<nat>>)
    requires Reordered(schema, plan, order, kv) && k < kv && |out| == |schema.sigils|
    requires plan.InWord(order[k])
    requires var word := AlignTo(pos, plan.BoolWordBytes());
             slot !in plan.boolSlots ==>
               Agrees(data, base, slot, schema, plan, order, kv, k + 1, word + plan.BoolWordBytes(), SetBools(out, plan.boolSlots, word, 0))
    ensures Agrees(data, base, slot, schema, plan, order, kv, k, pos, out)
  {
    hide SetBools, Order, FixedOrder, BoolSlots, Position;
    if slot in plan.boolSlots {
      var word := AlignTo(pos, plan.BoolWordBytes());
      SetBoolsIs(out, plan.boolSlots, word, 0, slot);
      EntryKept(schema, plan, order, kv, k + 1, word + plan.BoolWordBytes(), SetBools(out, plan.boolSlots, word, 0), slot);
    }
  }

  lemma {:induction false} CellStep(data: Bytes, base: nat, slot: nat, schema: Schema, plan: Plan, order: seq<nat>,
      kv: nat, k: nat, pos: nat, out: seq<Option<nat>>)
    requires Reordered(schema, plan, order, kv) && k < kv && |out| == |schema.sigils|
    requires !plan.InWord(order[k])
    requires var out' := out[order[k] := Some(CellOffset(pos, order[k], schema, plan))];
             order[k] != slot ==>
               Agrees(data, base, slot, schema, plan, order, kv, k + 1, AdvanceFixed(pos, order[k], schema, plan), out')
    ensures Agrees(data, base, slot, schema, plan, order, kv, k, pos, out)
  {
    var fi := order[k];
    var out' := out[fi := Some(CellOffset(pos, fi, schema, plan))];
    if fi == slot {
      EntryKept(schema, plan, order, kv, k + 1, AdvanceFixed(pos, fi, schema, plan), out', slot);
    } else {
      assert Advance(data, base, pos, fi, schema, plan) == Ok(AdvanceFixed(pos, fi, schema, plan));
    }
  }

  /** Later fixed cells leave the entry of an earlier one alone. */
  lemma {:induction false} EntryKept(schema: Schema, plan: Plan, order: seq<nat>, kv: nat, k: nat, pos: nat,
      out: seq<Option<nat>>, slot: nat)
    requires Reordered(schema, plan, order, kv) && k <= kv && |out| == |schema.sigils|
    requires slot < |out| && Passed(order, k, slot, plan)
    ensures Precompute(schema, plan, order, k, pos, out).0[slot] == out[slot]
    decreases kv - k
  {
    hide SetBools, BoolSlots, Position;
    if k < kv {
      var fi := order[k];
      assert fi != slot && !(plan.InWord(fi) && slot in plan.boolSlots);
      if plan.InWord(fi) {
        var word := AlignTo(pos, plan.BoolWordBytes());
        SetBoolsIs(out, plan.boolSlots, word, 0, slot);
        EntryKept(schema, plan, order, kv, k + 1, word + plan.BoolWordBytes(), SetBools(out, plan.boolSlots, word, 0), slot);
      } else {
        EntryKept(schema, plan, order, kv, k + 1, AdvanceFixed(pos, fi, schema, plan),
                  out[fi := Some(CellOffset(pos, fi, schema, plan))], slot);
      }
    }
  }

  /** `slot`, or the word that holds it, is among the first `k` cells. */
  ghost predicate Passed(order: seq<nat>, k: nat, slot: nat, plan: Plan)
  {
    exists j :: 0 <= j < k <= |order| && (order[j] == slot || (plan.InWord(order[j]) && slot in plan.boolSlots))
  }

  // ── The variable-length cells ─────────────────────────────────────────────

  /** The position of the first promoted string when the fixed cells end at an odd position. */
  predicate Misplaced(order: seq<nat>, schema: Schema, slot: nat, k: nat, pos: nat)
    requires InRange(order, schema) && k <= |order|
    decreases |order| - k
  {
    k < |order| && pos % 2 == 1 &&
    if order[k] == slot then schema.IsPromoted(slot)
    else !schema.IsPromoted(order[k]) && Misplaced(order, schema, slot, k + 1, pos)
  }

  lemma {:induction false} StrKeepsParity(pos: nat, payload: nat, prefix: nat)
    ensures PastStrCell(pos, payload, prefix) % 2 == pos % 2
  {
    var n := prefix + payload;
    var q, r := n / 8, n % 8;
    EightsAreEven(pos, if r == 0 then q else q + 1);
  }

  lemma {:induction false} EightsAreEven(pos: nat, k: nat)
    ensures (pos + 8 * k) % 2 == pos % 2
  {
  }

  lemma {:induction false} AlignTwo(pos: nat)
    ensures AlignTo(pos, 2) == if pos % 2 == 0 then pos else pos + 1
  {
    AlignsAtPowers(pos, 2);
    RoundUpUnique(pos, 2, if pos % 2 == 0 then pos else pos + 1);
  }

  /** The variable-length loop gives the walk's answer, one short exactly when the slot is misplaced. */
  lemma {:induction false} VarWalkAgrees(data: Bytes, base: nat, slot: nat, schema: Schema, plan: Plan,
      order: seq<nat>, kv: nat, k: nat, pos: nat)
    requires Reordered(schema, plan, order, kv) && kv <= k <= |order|
    ensures var walk := Walk(data, base, slot, schema, plan, order, k, pos);
            VarWalk(data, base, slot, schema, plan, order, k, pos) ==
            if walk.Ok? && walk.value.Some? && Misplaced(order, schema, slot, k, pos) then Ok(Some(walk.value.value - 1)) else walk
    ensures Walk(data, base, slot, schema, plan, order, k, pos).Ok? && Misplaced(order, schema, slot, k, pos) ==>
              Walk(data, base, slot, schema, plan, order, k, pos).value.Some?
    decreases |order| - k
  {
    hide AlignTo, PastStrCell, StrCellLen;
    AlignTwo(pos);
    if k < |order| {
      var fi := order[k];
      if fi != slot {
        var next := Advance(data, base, pos, fi, schema, plan);
        if next.Ok? {
          VarWalkAgrees(data, base, slot, schema, plan, order, kv, k + 1, next.value);
          if schema.IsPromoted(fi) {
            assert !Misplaced(order, schema, slot, k + 1, next.value);
          } else {
            StrKeepsParity(pos, StrCellLen(data, base + pos, schema.StrLenPrefix(fi)).value, schema.StrLenPrefix(fi));
            MisplacedParity(order, schema, slot, k + 1, pos, next.value);
          }
        }
      }
    }
  }

  lemma {:induction false} MisplacedParity(order: seq<nat>, schema: Schema, slot: nat, k: nat, pos: nat, pos': nat)
    requires InRange(order, schema) && k <= |order| && pos % 2 == pos' % 2
    ensures Misplaced(order, schema, slot, k, pos) == Misplaced(order, schema, slot, k, pos')
    decreases |order| - k
  {
    if k < |order| { MisplacedParity(order, schema, slot, k + 1, pos, pos'); }
  }

  lemma {:induction false} VarWalkSkips(data: Bytes, base: nat, slot: nat, schema: Schema, plan: Plan,
      order: seq<nat>, kv: nat, k: nat, pos: nat)
    requires Reordered(schema, plan, order, kv) && k <= kv
    ensures VarWalk(data, base, slot, schema, plan, order, k, pos) == VarWalk(data, base, slot, schema, plan, order, kv, pos)
    decreases kv - k
  {
    if k < kv { VarWalkSkips(data, base, slot, schema, plan, order, kv, k + 1, pos); }
  }

  // ── Main results ──────────────────────────────────────────────────────────

  /** The full walk, whatever the plan precomputed. */
  function WalkAnswer(data: Bytes, obj: nat, slot: nat, schema: Schema, plan: Plan): Result<Option<nat>>
    requires schema.Shaped()
  {
    OrderInRange(schema, plan);
    Walk(data, obj + 9, slot, schema, plan, Order(schema, plan), 0, 0)
  }

  /**
   The slot is the first promoted string of a reordered record whose fixed region has odd length: the one
   cell the variable-length loop finds without its alignment.
   */
  predicate Unaligned(slot: nat, schema: Schema, rows: RowPlan)
    requires schema.Shaped()
  {
    OrderInRange(schema, rows.plan);
    rows.fixed.Some? && rows.varStart.Some? &&
    !(slot < |rows.fixed.value| && rows.fixed.value[slot].Some?) &&
    var kv := |FixedOrder(schema, rows.plan)|;
    kv <= |Order(schema, rows.plan)| && Misplaced(Order(schema, rows.plan), schema, slot, kv, rows.varStart.value)
  }

  lemma {:induction false} ReorderedPlan(schema: Schema, plan: Plan)
    requires PlanFits(plan, schema) && plan.reorder
    ensures Reordered(schema, plan, Order(schema, plan), |FixedOrder(schema, plan)|)
  {
    OrderIsPermutation(schema, plan);
    FixedOrderIs(schema, plan);
    assert forall j :: 0 <= j < |plan.boolSlots| ==> plan.boolSlots[j] in plan.boolSlots;
    forall j | 0 <= j < |FixedOrder(schema, plan)| && plan.InWord(Order(schema, plan)[j])
      ensures plan.FirstBool() == Some(Order(schema, plan)[j])
    {
      assert Order(schema, plan)[j] in FixedOrder(schema, plan);
    }
  }

  /**
   For every schema, plan, slot and data, the table and the variable-length loop answer as the full walk
   does, except for one slot that `Unaligned` names, where they answer one byte short.
   */
  lemma {:induction false} TableRefinesWalk(data: Bytes, obj: nat, slot: nat, schema: Schema, flags: WireFlags)
    requires schema.Shaped()
    ensures var rows := RowPlanOf(schema, flags);
            var walk := WalkAnswer(data, obj, slot, schema, rows.plan);
            && (Unaligned(slot, schema, rows) && walk.Ok? ==> walk.value.Some?)
            && DenseFieldOffset(data, obj, slot, schema, rows) ==
               if Unaligned(slot, schema, rows) && walk.Ok? then Ok(Some(walk.value.value - 1)) else walk
  {
    hide Order, FixedOrder, BoolSlots, AlignTo, Advance, AdvanceFixed, CellOffset, SetBools, Misplaced, Position;
    var rows := RowPlanOf(schema, flags);
    var plan := rows.plan;
    if flags.reorder && flags.dense {
      ReorderedPlan(schema, plan);
      var base, order, kv := obj + 9, Order(schema, plan), |FixedOrder(schema, plan)|;
      TableAgrees(data, base, slot, schema, plan, order, kv, 0, 0, NoOffsets(schema.Count()));
      if rows.varStart.Some? {
        VarWalkSkips(data, base, slot, schema, plan, order, kv, 0, rows.varStart.value);
        VarWalkAgrees(data, base, slot, schema, plan, order, kv, kv, rows.varStart.value);
      }
    }
  }
}
