/**
 How long the fixed-width cells of a dense record are: in wire order they need no padding, and no other
 order of the same cells is shorter.
 */
module WireLength {
  import opened Bytes
  import opened Align
  import opened CompactSchema
  import opened WireOrder
  import opened DenseWalk

  predicate SmallWidth(w: nat) { w == 1 || w == 2 || w == 4 || w == 8 }

  /** The column types the writer infers, with the widths it gives them. */
  predicate SlotTyped(slot: nat, schema: Schema, plan: Plan)
    requires slot < |schema.sigils|
  {
    var sig := schema.sigils[slot];
    (schema.IsPromoted(slot) ==> sig == SIGIL_STR) &&
    if sig == SIGIL_INT then SmallWidth(plan.Width(schema, slot))
    else if sig == SIGIL_FLOAT || sig == SIGIL_BOOL || sig == SIGIL_TIME then plan.Width(schema, slot) == 8
    else sig == SIGIL_STR || sig == SIGIL_KEYWORD
  }

  /** Every column is typed, and the packed bools fit a word. */
  ghost predicate Typed(schema: Schema, plan: Plan)
  {
    PlanFits(plan, schema) && (plan.packed ==> |plan.boolSlots| <= 64) &&
    forall s :: 0 <= s < schema.Count() ==> SlotTyped(s, schema, plan) && (!plan.narrow ==> schema.widths[s] == 0)
  }

  /** The word is of 1, 2, 4 or 8 bytes: the sizes that the readers' alignment formula handles. */
  predicate WordOk(plan: Plan)
  {
    plan.BoolWordBytes() == 0 || SmallWidth(plan.BoolWordBytes())
  }

  /** The fixed region after the cells of `order`, by the reader's own advance. */
  function RegionLen(order: seq<nat>, schema: Schema, plan: Plan): (len: nat)
    requires InRange(order, schema)
  {
    if |order| == 0 then 0
    else AdvanceFixed(RegionLen(order[..|order| - 1], schema, plan), order[|order| - 1], schema, plan)
  }

  function SumWidths(order: seq<nat>, schema: Schema, plan: Plan): (sum: nat)
    requires InRange(order, schema)
  {
    if |order| == 0 then 0
    else SumWidths(order[..|order| - 1], schema, plan) + AlignWidth(order[|order| - 1], schema, plan)
  }

  ghost predicate AllFixed(order: seq<nat>, schema: Schema, plan: Plan)
  {
    forall j :: 0 <= j < |order| ==> 0 <= order[j] < |schema.sigils| && HasFixedCell(order[j], schema, plan)
  }

  /** A typed fixed cell is padded to its width and is as long as its width. */
  lemma {:induction false} AdvanceIsAligned(pos: nat, fi: nat, schema: Schema, plan: Plan)
    requires Typed(schema, plan) && WordOk(plan) && fi < |schema.sigils| && HasFixedCell(fi, schema, plan)
    ensures SmallWidth(AlignWidth(fi, schema, plan))
    ensures AdvanceFixed(pos, fi, schema, plan) == RoundUp(pos, AlignWidth(fi, schema, plan)) + AlignWidth(fi, schema, plan)
  {
    assert SlotTyped(fi, schema, plan);
    SmallPowers();
    if plan.InWord(fi) {
      assert |plan.boolSlots| > 0;
    }
    AlignsAtPowers(pos, AlignWidth(fi, schema, plan));
  }

  lemma {:induction false} RegionAtLeastSum(order: seq<nat>, schema: Schema, plan: Plan)
    requires Typed(schema, plan) && WordOk(plan) && AllFixed(order, schema, plan)
    ensures RegionLen(order, schema, plan) >= SumWidths(order, schema, plan)
  {
    if |order| > 0 {
      RegionAtLeastSum(order[..|order| - 1], schema, plan);
      AdvanceIsAligned(RegionLen(order[..|order| - 1], schema, plan), order[|order| - 1], schema, plan);
    }
  }

  ghost predicate Descending(order: seq<nat>, schema: Schema, plan: Plan)
    requires InRange(order, schema)
  {
    forall j, k :: 0 <= j < k < |order| ==> AlignWidth(order[j], schema, plan) >= AlignWidth(order[k], schema, plan)
  }

  /** Descending power-of-two widths leave no padding, and keep the position a multiple of the last width. */
  lemma {:induction false} DescendingHasNoPadding(order: seq<nat>, schema: Schema, plan: Plan)
    requires Typed(schema, plan) && WordOk(plan) && AllFixed(order, schema, plan) && Descending(order, schema, plan)
    ensures RegionLen(order, schema, plan) == SumWidths(order, schema, plan)
    ensures |order| > 0 ==> RegionLen(order, schema, plan) % AlignWidth(order[|order| - 1], schema, plan) == 0
  {
    hide AlignWidth, AdvanceFixed, RoundUp, SlotTyped, HasFixedCell;
    if |order| > 0 {
      var front, fi := order[..|order| - 1], order[|order| - 1];
      DescendingHasNoPadding(front, schema, plan);
      var pos, w := RegionLen(front, schema, plan), AlignWidth(fi, schema, plan);
      AdvanceIsAligned(pos, fi, schema, plan);
      if |front| > 0 {
        AdvanceIsAligned(0, front[|front| - 1], schema, plan);
        Divides(pos, AlignWidth(front[|front| - 1], schema, plan), w);
      } else {
        Divides(0, w, w);
      }
    }
  }

  lemma {:induction false} Divides(pos: nat, wide: nat, narrow: nat)
    requires SmallWidth(wide) && SmallWidth(narrow) && narrow <= wide && pos % wide == 0
    ensures RoundUp(pos, narrow) == pos && (pos + narrow) % narrow == 0
  {
    var q := pos / wide;
    var m := if wide == narrow then 1 else if wide == 2 * narrow then 2 else if wide == 4 * narrow then 4 else 8;
    assert wide == m * narrow;
    assert pos == wide * q == narrow * (m * q);
    ModUnique(pos, narrow, m * q, 0);
    ModUnique(pos + narrow, narrow, m * q + 1, 0);
    RoundUpUnique(pos, narrow, pos);
  }

  lemma {:induction false} SumOfRemoved(order: seq<nat>, k: nat, schema: Schema, plan: Plan)
    requires InRange(order, schema) && k < |order|
    ensures InRange(order[..k] + order[k + 1..], schema)
    ensures SumWidths(order, schema, plan) ==
            SumWidths(order[..k] + order[k + 1..], schema, plan) + AlignWidth(order[k], schema, plan)
    decreases |order|
  {
    var rest := order[..k] + order[k + 1..];
    if k == |order| - 1 {
      assert rest == order[..k];
    } else {
      var front := order[..|order| - 1];
      SumOfRemoved(front, k, schema, plan);
      assert rest[..|rest| - 1] == front[..k] + front[k + 1..];
    }
  }

  lemma {:induction false} SumOfPermutation(a: seq<nat>, b: seq<nat>, schema: Schema, plan: Plan)
    requires InRange(a, schema) && InRange(b, schema) && multiset(a) == multiset(b)
    ensures SumWidths(a, schema, plan) == SumWidths(b, schema, plan)
    decreases |a|
  {
    if |a| > 0 {
      var k := RemoveLast(a, b);
      SumOfRemoved(b, k, schema, plan);
      SumOfPermutation(a[..|a| - 1], b[..k] + b[k + 1..], schema, plan);
    } else {
      assert |multiset(b)| == 0;
    }
  }

  lemma {:induction false} RemoveLast(a: seq<nat>, b: seq<nat>) returns (k: nat)
    requires |a| > 0 && multiset(a) == multiset(b)
    ensures k < |b| && b[k] == a[|a| - 1]
    ensures multiset(a[..|a| - 1]) == multiset(b[..k] + b[k + 1..])
  {
    var x := a[|a| - 1];
    assert x in multiset(b);
    k :| 0 <= k < |b| && b[k] == x;
    assert b == b[..k] + [x] + b[k + 1..];
    assert a == a[..|a| - 1] + [x];
    assert multiset(a[..|a| - 1]) == multiset(a) - multiset{x};
  }

  lemma {:induction false} FixedOrderDescends(schema: Schema, plan: Plan)
    requires schema.Shaped()
    ensures AllFixed(FixedOrder(schema, plan), schema, plan)
    ensures Descending(FixedOrder(schema, plan), schema, plan)
  {
    FixedOrderIs(schema, plan);
    var cells := FixedCells(schema, plan, 0);
    var sorted := SortFixed(cells);
    SortFixedSorted(cells);
    FixedCellsAre(schema, plan, 0);
    forall j | 0 <= j < |sorted|
      ensures sorted[j] in cells
    {
      assert sorted[j] in multiset(sorted);
    }
    var order := FixedOrder(schema, plan);
    assert forall j :: 0 <= j < |order| ==> order[j] in order && order[j] == sorted[j].slot;
  }

  /**
   The fixed region in wire order is exactly the sum of the cell widths, and no order of the same cells
   makes it shorter.
   */
  lemma {:induction false} WireOrderIsShortest(schema: Schema, plan: Plan, other: seq<nat>)
    requires Typed(schema, plan) && WordOk(plan) && multiset(other) == multiset(FixedOrder(schema, plan))
    ensures InRange(FixedOrder(schema, plan), schema) && InRange(other, schema)
    ensures RegionLen(FixedOrder(schema, plan), schema, plan) == SumWidths(FixedOrder(schema, plan), schema, plan)
    ensures RegionLen(FixedOrder(schema, plan), schema, plan) <= RegionLen(other, schema, plan)
  {
    var order := FixedOrder(schema, plan);
    FixedOrderDescends(schema, plan);
    DescendingHasNoPadding(order, schema, plan);
    forall j | 0 <= j < |other|
      ensures other[j] in order
    {
      assert other[j] in multiset(other);
    }
    SumOfPermutation(order, other, schema, plan);
    RegionAtLeastSum(other, schema, plan);
  }
}
