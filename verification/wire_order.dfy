/**
 The order of dense cells on the wire: fixed-width cells by descending width, then variable-length cells
 in schema order. The order is a permutation of the cells, needs no padding, and no order is shorter.
 */
module WireOrder {
  import opened Bytes
  import opened Align
  import opened CompactSchema

  /** A fixed-width cell to sort: its alignment width and its slot. */
  datatype Fixed = Fixed(width: nat, slot: nat)

  /** `dense_cell_align_width` */
  function AlignWidth(slot: nat, schema: Schema, plan: Plan): (w: nat)
    requires slot < |schema.sigils|
  {
    var sig := schema.sigils[slot];
    if plan.InWord(slot) then plan.BoolWordBytes()
    else if IsVar(sig) then 0
    else if schema.IsPromoted(slot) || sig == SIGIL_KEYWORD then 2
    else if sig == SIGIL_INT || sig == SIGIL_FLOAT then (if plan.narrow then schema.CellWidth(slot) else 8)
    else if sig == SIGIL_TIME then 8
    else if sig == SIGIL_BOOL && !plan.packed then 8
    else if sig == SIGIL_NULL then 1
    else 8
  }

  /** The fixed-width cells from slot `i` on; of the packed bools, only the first has a cell. */
  function FixedCells(schema: Schema, plan: Plan, i: nat): (cells: seq<Fixed>)
    requires schema.Shaped() && i <= schema.Count()
    decreases schema.Count() - i
  {
    if i == schema.Count() then []
    else if HasFixedCell(i, schema, plan) then [Fixed(AlignWidth(i, schema, plan), i)] + FixedCells(schema, plan, i + 1)
    else FixedCells(schema, plan, i + 1)
  }

  predicate HasFixedCell(slot: nat, schema: Schema, plan: Plan)
    requires slot < |schema.sigils|
  {
    !IsVar(schema.sigils[slot]) && (plan.InWord(slot) ==> plan.FirstBool() == Some(slot))
  }

  function VarSlots(schema: Schema, i: nat): (slots: seq<nat>)
    requires schema.Shaped() && i <= schema.Count()
    decreases schema.Count() - i
  {
    if i == schema.Count() then []
    else if IsVar(schema.sigils[i]) then [i] + VarSlots(schema, i + 1)
    else VarSlots(schema, i + 1)
  }

  lemma {:induction false} FixedCellsAre(schema: Schema, plan: Plan, i: nat)
    requires schema.Shaped() && i <= schema.Count()
    ensures forall c :: c in FixedCells(schema, plan, i) <==>
              i <= c.slot < schema.Count() && HasFixedCell(c.slot, schema, plan) && c.width == AlignWidth(c.slot, schema, plan)
    decreases schema.Count() - i
  {
    if i < schema.Count() { FixedCellsAre(schema, plan, i + 1); }
  }

  lemma {:induction false} VarSlotsAre(schema: Schema, i: nat)
    requires schema.Shaped() && i <= schema.Count()
    ensures forall s :: s in VarSlots(schema, i) <==> i <= s < schema.Count() && IsVar(schema.sigils[s])
    ensures Distinct(VarSlots(schema, i))
    decreases schema.Count() - i
  {
    if i < schema.Count() {
      VarSlotsAre(schema, i + 1);
      var rest := VarSlots(schema, i + 1);
      assert forall k :: 0 <= k < |rest| ==> rest[k] in rest;
    }
  }

  /** Wider first, then the lower slot. */
  predicate Before(a: Fixed, b: Fixed)
  {
    a.width > b.width || (a.width == b.width && a.slot <= b.slot)
  }

  function Insert(c: Fixed, cells: seq<Fixed>): (r: seq<Fixed>)
    ensures multiset(r) == multiset(cells) + multiset{c}
  {
    if |cells| == 0 || Before(c, cells[0]) then [c] + cells
    else
      assert cells == [cells[0]] + cells[1..];
      [cells[0]] + Insert(c, cells[1..])
  }

  function SortFixed(cells: seq<Fixed>): (r: seq<Fixed>)
    ensures multiset(r) == multiset(cells)
  {
    if |cells| == 0 then []
    else
      assert cells == [cells[0]] + cells[1..];
      Insert(cells[0], SortFixed(cells[1..]))
  }

  ghost predicate Sorted(cells: seq<Fixed>)
  {
    forall j, k :: 0 <= j < k < |cells| ==> Before(cells[j], cells[k])
  }

  lemma {:induction false} InsertSorted(c: Fixed, cells: seq<Fixed>)
    requires Sorted(cells)
    ensures Sorted(Insert(c, cells))
  {
    if |cells| > 0 && !Before(c, cells[0]) {
      InsertSorted(c, cells[1..]);
      var rest := Insert(c, cells[1..]);
      forall k | 0 <= k < |rest|
        ensures Before(cells[0], rest[k])
      {
        assert rest[k] in multiset(rest);
        assert rest[k] == c || rest[k] in cells[1..];
      }
    }
  }

  lemma {:induction false} SortFixedSorted(cells: seq<Fixed>)
    ensures Sorted(SortFixed(cells))
  {
    if |cells| > 0 {
      SortFixedSorted(cells[1..]);
      InsertSorted(cells[0], SortFixed(cells[1..]));
    }
  }

  function Slots(cells: seq<Fixed>): (s: seq<nat>)
    ensures |s| == |cells| && forall k :: 0 <= k < |s| ==> s[k] == cells[k].slot
  {
    seq(|cells|, k requires 0 <= k < |cells| => cells[k].slot)
  }

  function FixedOrder(schema: Schema, plan: Plan): (s: seq<nat>)
    requires schema.Shaped()
  {
    Slots(SortFixed(FixedCells(schema, plan, 0)))
  }

  function SlotRange(n: nat): (s: seq<nat>)
    ensures |s| == n && forall k :: 0 <= k < n ==> s[k] == k
  {
    seq(n, k => k)
  }

  /** `RowCellPlan::dense_wire_order` */
  function Order(schema: Schema, plan: Plan): (s: seq<nat>)
    requires schema.Shaped()
  {
    if plan.reorder then FixedOrder(schema, plan) + VarSlots(schema, 0) else SlotRange(schema.Count())
  }

  lemma {:induction false} FirstSlot(schema: Schema, plan: Plan, i: nat)
    requires schema.Shaped() && i < schema.Count()
    ensures VarSlots(schema, i) == (if IsVar(schema.sigils[i]) then [i] else []) + VarSlots(schema, i + 1)
    ensures FixedCells(schema, plan, i) ==
            (if HasFixedCell(i, schema, plan) then [Fixed(AlignWidth(i, schema, plan), i)] else []) + FixedCells(schema, plan, i + 1)
    ensures plan.InWord(i) ==> AlignWidth(i, schema, plan) == plan.BoolWordBytes()
  {
    hide AlignWidth, Plan.BoolWordBytes;
    WordWidth(schema, plan, i);
  }

  lemma {:induction false} WordWidth(schema: Schema, plan: Plan, i: nat)
    requires schema.Shaped() && i < schema.Count()
    ensures plan.InWord(i) ==> AlignWidth(i, schema, plan) == plan.BoolWordBytes()
  {
  }

  lemma {:induction false} LastSlots(schema: Schema, plan: Plan)
    requires schema.Shaped()
    ensures VarSlots(schema, schema.Count()) == [] && FixedCells(schema, plan, schema.Count()) == []
  {
  }

  /** `dense_wire_order`: collect, sort, and append the variable-length slots. */
  method DenseWireOrder(schema: Schema, plan: Plan) returns (order: seq<nat>)
    requires schema.Shaped() && plan.reorder
    ensures order == Order(schema, plan)
  {
    hide FixedCells, VarSlots, SortFixed, AlignWidth, Plan.BoolWordBytes;
    LastSlots(schema, plan);
    var fixed: seq<Fixed> := [];
    var vars: seq<nat> := [];
    for fi := 0 to schema.Count()
      invariant fixed + FixedCells(schema, plan, fi) == FixedCells(schema, plan, 0)
      invariant vars + VarSlots(schema, fi) == VarSlots(schema, 0)
    {
      ghost var fixed0, vars0 := fixed, vars;
      FirstSlot(schema, plan, fi);
      if IsVar(schema.sigils[fi]) {
        vars := vars + [fi];
      } else if plan.InWord(fi) {
        if plan.FirstBool() == Some(fi) {
          fixed := fixed + [Fixed(plan.BoolWordBytes(), fi)];
        }
      } else {
        fixed := fixed + [Fixed(AlignWidth(fi, schema, plan), fi)];
      }
      assert fixed + FixedCells(schema, plan, fi + 1) == fixed0 + FixedCells(schema, plan, fi);
      assert vars + VarSlots(schema, fi + 1) == vars0 + VarSlots(schema, fi);
    }
    order := Slots(SortFixed(fixed)) + vars;
    assert fixed == FixedCells(schema, plan, 0) && vars == VarSlots(schema, 0);
  }

  // ── A permutation of the cells ────────────────────────────────────────────

  ghost predicate Distinct(s: seq<nat>)
  {
    forall j, k :: 0 <= j < k < |s| ==> s[j] != s[k]
  }

  lemma {:induction false} FixedCellsDistinct(schema: Schema, plan: Plan, i: nat)
    requires schema.Shaped() && i <= schema.Count()
    ensures Distinct(Slots(FixedCells(schema, plan, i)))
    decreases schema.Count() - i
  {
    if i < schema.Count() {
      FixedCellsDistinct(schema, plan, i + 1);
      FixedCellsAre(schema, plan, i + 1);
      var rest := FixedCells(schema, plan, i + 1);
      forall k | 0 <= k < |rest|
        ensures rest[k].slot != i
      {
        assert rest[k] in rest;
      }
    }
  }

  lemma {:induction false} InsertDistinct(c: Fixed, cells: seq<Fixed>)
    requires Distinct(Slots(cells)) && forall x :: x in cells ==> x.slot != c.slot
    ensures Distinct(Slots(Insert(c, cells)))
  {
    hide Slots, Distinct;
    if |cells| == 0 || Before(c, cells[0]) {
      DistinctCons(c, cells);
    } else {
      var rest := cells[1..];
      DistinctTail(cells);
      InsertDistinct(c, rest);
      InsertMembers(c, rest);
      DistinctCons(cells[0], Insert(c, rest));
    }
  }

  lemma {:induction false} DistinctCons(c: Fixed, rest: seq<Fixed>)
    requires Distinct(Slots(rest)) && forall x :: x in rest ==> x.slot != c.slot
    ensures Distinct(Slots([c] + rest))
  {
    assert forall k :: 0 <= k < |rest| ==> Slots(rest)[k] != c.slot;
    assert Slots([c] + rest) == [c.slot] + Slots(rest);
  }

  lemma {:induction false} DistinctTail(cells: seq<Fixed>)
    requires |cells| > 0 && Distinct(Slots(cells))
    ensures Distinct(Slots(cells[1..])) && cells == [cells[0]] + cells[1..]
    ensures forall x :: x in cells[1..] ==> x.slot != cells[0].slot
  {
    assert Slots(cells[1..]) == Slots(cells)[1..];
    assert forall k :: 0 < k < |cells| ==> Slots(cells)[k] != Slots(cells)[0];
  }

  lemma {:induction false} InsertMembers(c: Fixed, cells: seq<Fixed>)
    ensures forall x :: x in Insert(c, cells) ==> x == c || x in cells
  {
    forall x | x in Insert(c, cells)
      ensures x == c || x in cells
    {
      assert x in multiset(Insert(c, cells));
    }
  }

  lemma {:induction false} SortDistinct(cells: seq<Fixed>)
    requires Distinct(Slots(cells))
    ensures Distinct(Slots(SortFixed(cells)))
  {
    if |cells| > 0 {
      hide Slots, Distinct, Insert;
      var rest := cells[1..];
      DistinctTail(cells);
      SortDistinct(rest);
      forall x | x in SortFixed(rest)
        ensures x.slot != cells[0].slot
      {
        assert x in multiset(SortFixed(rest));
      }
      InsertDistinct(cells[0], SortFixed(rest));
    }
  }

  lemma {:induction false} FixedOrderIs(schema: Schema, plan: Plan)
    requires schema.Shaped()
    ensures Distinct(FixedOrder(schema, plan))
    ensures forall s :: s in FixedOrder(schema, plan) <==> 0 <= s < schema.Count() && HasFixedCell(s, schema, plan)
  {
    var cells := FixedCells(schema, plan, 0);
    var sorted := SortFixed(cells);
    FixedCellsAre(schema, plan, 0);
    FixedCellsDistinct(schema, plan, 0);
    SortDistinct(cells);
    forall s | 0 <= s < schema.Count() && HasFixedCell(s, schema, plan)
      ensures s in Slots(sorted)
    {
      var c := Fixed(AlignWidth(s, schema, plan), s);
      assert c in multiset(sorted);
      var j :| 0 <= j < |sorted| && sorted[j] == c;
      assert Slots(sorted)[j] == s;
    }
    forall j | 0 <= j < |sorted|
      ensures sorted[j] in cells
    {
      assert sorted[j] in multiset(sorted);
    }
  }

  /**
   The reordered wire order lists every slot that has a cell exactly once: the fixed-width slots, with
   the first of the packed bools standing for all of them, before the variable-length ones.
   */
  lemma {:induction false} OrderIsPermutation(schema: Schema, plan: Plan)
    requires schema.Shaped() && plan.reorder
    ensures Distinct(Order(schema, plan))
    ensures forall s :: s in Order(schema, plan) <==>
              0 <= s < schema.Count() && (IsVar(schema.sigils[s]) || HasFixedCell(s, schema, plan))
    ensures forall j :: 0 <= j < |Order(schema, plan)| ==>
              var s := Order(schema, plan)[j];
              0 <= s < schema.Count() && (IsVar(schema.sigils[s]) <==> |FixedOrder(schema, plan)| <= j)
  {
    hide Slots, SortFixed, FixedCells, VarSlots, FixedOrder;
    FixedOrderIs(schema, plan);
    VarSlotsAre(schema, 0);
    var fixed, vars := FixedOrder(schema, plan), VarSlots(schema, 0);
    assert forall j :: 0 <= j < |fixed| ==> fixed[j] in fixed;
    assert forall j :: 0 <= j < |vars| ==> vars[j] in vars;
  }
}
