/**
 Where the code does not do what it means to: for each exact condition proved elsewhere, an input that
 fails it, and what the failure is.
 */
module Limits {
  import opened Bytes
  import opened Align
  import opened CompactSchema
  import opened Bitmask
  import opened CellRun
  import opened WireOrder
  import opened DenseWalk
  import opened WireLength
  import opened CompactCells
  import opened CompactDense
  import opened CompactSparse
  import opened CompactRecord
  import Columns
  import SparseRecord
  import TailIndex
  import RowObject
  import Span
  import SpanCodec
  import WalRecovery
  import ForwardReaders

  // ── Schemas of bools ──────────────────────────────────────────────────────

  function Repeat<T>(x: T, n: nat): (s: seq<T>)
    ensures |s| == n && forall k :: 0 <= k < n ==> s[k] == x
  {
    seq(n, k => x)
  }

  lemma {:induction false} TrailingBools(sigils: Bytes, i: nat)
    requires i <= |sigils| && forall k :: i <= k < |sigils| ==> sigils[k] == SIGIL_BOOL
    ensures |BoolSlotsFrom(sigils, i)| == |sigils| - i && forall k :: 0 <= k < |sigils| - i ==> BoolSlotsFrom(sigils, i)[k] == i + k
    decreases |sigils| - i
  {
    if i < |sigils| {
      TrailingBools(sigils, i + 1);
      var rest := BoolSlotsFrom(sigils, i + 1);
      hide BoolSlotsFrom;
      assert BoolSlotsFrom(sigils, i) == [i] + rest by { OneBool(sigils, i); }
    }
  }

  lemma {:induction false} OneBool(sigils: Bytes, i: nat)
    requires i < |sigils| && sigils[i] == SIGIL_BOOL
    ensures BoolSlotsFrom(sigils, i) == [i] + BoolSlotsFrom(sigils, i + 1)
  {
  }

  // ── A dense word that is out of step ──────────────────────────────────────

  /** A one-byte integer and `n` bools. */
  function IntThenBools(n: nat): (s: Schema)
    ensures s.Shaped() && s.Count() == n + 1
    ensures s.sigils[0] == SIGIL_INT && forall k :: 0 < k <= n ==> s.sigils[k] == SIGIL_BOOL
    ensures s.widths[0] == 1 && forall k :: 0 < k <= n ==> s.widths[k] == 0
    ensures forall k :: 0 <= k <= n ==> !s.IsPromoted(k)
  {
    NoBit();
    Schema(Repeat([], n + 1), [SIGIL_INT] + Repeat(SIGIL_BOOL, n), [1] + Repeat(0, n), Repeat(0, n + 1), [])
  }

  lemma {:induction false} NoBit()
    ensures !Bit(0, 0)
  {
  }

  function DenseOptions(): Options { Options(true, true, true, false, false, 0.0, 0, 0, false, false) }

  /** An integer, then `n` true bools. */
  function IntAndBools(n: nat): Cells
  {
    if n == 0 then [(0, I64(5))] else IntAndBools(n - 1) + [(n, Bool(true))]
  }

  lemma {:induction false} IntAndBoolsHold(n: nat, s: nat)
    ensures Lookup(IntAndBools(n), s) == if s == 0 then Some(I64(5)) else if s <= n then Some(Bool(true)) else None
  {
    if n > 0 {
      assert IntAndBools(n)[..|IntAndBools(n)| - 1] == IntAndBools(n - 1);
      IntAndBoolsHold(n - 1, s);
    }
  }

  /** The plan of the schema: its word holds every slot but the first. */
  lemma {:induction false} BoolsPlan(n: nat)
    requires 1 <= n <= 64
    ensures var plan := PlanOf(IntThenBools(n), DenseOptions());
            && plan.packed && plan.narrow && !plan.reorder && |plan.boolSlots| == n && plan.boolSlots[0] == 1
            && plan.BoolWordBytes() == (n + 7) / 8 && !plan.InWord(0) && plan.InWord(1) && plan.FirstBool() == Some(1)
    ensures Typed(IntThenBools(n), PlanOf(IntThenBools(n), DenseOptions()))
    ensures IntThenBools(n).CellWidth(0) == 1
  {
    hide IntThenBools, Bit;
    var schema := IntThenBools(n);
    TrailingBools(schema.sigils, 1);
    assert BoolSlots(schema) == BoolSlotsFrom(schema.sigils, 1);
  }

  lemma {:induction false} BoolsComplete(n: nat)
    requires 1 <= n <= 64
    ensures DenseCells(IntAndBools(n), IntThenBools(n), DenseOptions())
  {
    hide IntThenBools, BoolSlots, IntAndBools, Typed, PlanFor;
    var schema, plan := IntThenBools(n), PlanOf(IntThenBools(n), DenseOptions());
    BoolsPlan(n);
    forall s | 0 <= s < schema.Count()
      ensures Lookup(IntAndBools(n), s).Some? && CellFits(Lookup(IntAndBools(n), s).value, s, schema, plan)
    {
      IntAndBoolsHold(n, s);
      FiveFits(schema, plan);
    }
  }

  lemma {:induction false} FiveFits(schema: Schema, plan: Plan)
    requires schema.Count() > 0 && schema.Shaped() && schema.sigils[0] == SIGIL_INT && schema.CellWidth(0) == 1 && plan.narrow
    ensures CellFits(I64(5), 0, schema, plan) && EncodeInt(5, 1).Ok?
    ensures CellItem(0, I64(5), schema, plan).Ok? && |CellItem(0, I64(5), schema, plan).value.bytes| == 1
    ensures CellItem(0, I64(5), schema, plan).value.align == 1
  {
  }

  /** The word of this record is written behind one byte. */
  lemma {:induction false} WordAfterOneByte(n: nat, slot: nat)
    requires 1 <= slot <= n <= 64 && DenseCells(IntAndBools(n), IntThenBools(n), DenseOptions())
    ensures var schema, plan := IntThenBools(n), PlanOf(IntThenBools(n), DenseOptions());
            plan.InWord(slot) && (OwnWordInStep(slot, IntAndBools(n), schema, plan) <==> PowerOfTwo((n + 7) / 8))
  {
    hide IntThenBools, BoolSlots, IntAndBools, SlotTyped, PlanFor, AlignTo, PowerOfTwo, CellItem, WordInStep;
    var schema, plan, cells := IntThenBools(n), PlanOf(IntThenBools(n), DenseOptions()), IntAndBools(n);
    BoolsPlan(n);
    IntAndBoolsHold(n, 0);
    FiveFits(schema, plan);
    var items := DenseItems(cells, schema, plan);
    OrderInRange(schema, plan);
    assert Order(schema, plan)[1] == 1;
    assert BoolSlots(schema) == plan.boolSlots && schema.sigils[slot] == SIGIL_BOOL;
    assert Owner(slot, plan) == 1;
    assert CellIndex(slot, schema, plan) == 1;
    assert |items[0].bytes| == 1 && items[0].align == 1;
    BodySnoc(items, 0);
    assert |Body(items[..1])| == 1;
    OneByteAligned((n + 7) / 8);
    InStepIs(1, plan);
  }

  lemma {:induction false} OneByteAligned(a: nat)
    requires a >= 1
    ensures AlignTo(1, a) == RoundUp(1, a) <==> PowerOfTwo(a)
  {
    if a == 1 { AlignsAtPowers(1, 1); }
    else {
      LowestBit(a);
      ModUnique(a, a, 1, 0);
      RoundUpUnique(1, a, a);
    }
  }

  /**
   A one-byte integer in front of `n` packed bools: the bools are found exactly when their word is of 1, 2, 4
   or 8 bytes. With 17 bools the word is of three, and every one of them is read from the wrong byte.
   */
  lemma {:induction false} BoolsFoundIff(n: nat, data: Bytes, obj: nat, slot: nat)
    requires 1 <= slot <= n <= 64 && Written(IntAndBools(n), IntThenBools(n), DenseOptions(), data, obj)
    ensures DenseCells(IntAndBools(n), IntThenBools(n), DenseOptions())
    ensures ResolveField(data, obj, slot, IntThenBools(n), RowPlanOf(IntThenBools(n), DenseOptions().Wire()), true) ==
            Some(WrittenOffset(IntAndBools(n), IntThenBools(n), DenseOptions(), obj, slot))
            <==> PowerOfTwo((n + 7) / 8)
    ensures !PowerOfTwo((17 + 7) / 8)
  {
    hide *;
    BoolsComplete(n);
    WordAfterOneByte(n, slot);
    SmallPowers();
    DenseResolvesIff(IntAndBools(n), IntThenBools(n), DenseOptions(), data, obj, slot);
  }

  // ── A sparse word found a byte late ───────────────────────────────────────

  function JustBools(n: nat): (s: Schema)
    ensures s.Shaped() && s.Count() == n && s.sigils == Repeat(SIGIL_BOOL, n)
    ensures forall k :: 0 <= k < n ==> s.widths[k] == 0 && !s.IsPromoted(k)
  {
    NoBit();
    Schema(Repeat([], n), Repeat(SIGIL_BOOL, n), Repeat(0, n), Repeat(0, n), [])
  }

  function LoneBool(s: nat): Cells { [(s, Bool(true))] }

  lemma {:induction false} LoneBoolHolds(s: nat, k: nat)
    ensures Lookup(LoneBool(s), k) == if k == s then Some(Bool(true)) else None
  {
    assert LoneBool(s)[..0] == [];
  }

  lemma {:induction false} JustBoolsPlan(n: nat, s: nat)
    requires s < n && 2 <= n <= 64
    ensures var plan := PlanOf(JustBools(n), DenseOptions());
            && plan.packed && plan.InWord(s) && Position(plan.boolSlots, s) == s && plan.BoolWordBytes() == (n + 7) / 8
            && Typed(JustBools(n), plan)
  {
    hide JustBools, Bit, BoolSlots;
    AllSlots(JustBools(n));
    OwnPosition(BoolSlots(JustBools(n)), s);
  }

  lemma {:induction false} AllSlots(schema: Schema)
    requires schema.Shaped() && forall k :: 0 <= k < schema.Count() ==> schema.sigils[k] == SIGIL_BOOL
    ensures |BoolSlots(schema)| == schema.Count() && forall k :: 0 <= k < schema.Count() ==> BoolSlots(schema)[k] == k
  {
    TrailingBools(schema.sigils, 0);
  }

  lemma {:induction false} OwnPosition(slots: seq<nat>, s: nat)
    requires s < |slots| && forall k :: 0 <= k < |slots| ==> slots[k] == k
    ensures s in slots && Position(slots, s) == s
  {
    assert slots[s] == s;
  }

  lemma {:induction false} LoneBoolIsSparse(n: nat, s: nat)
    requires s < n && 2 <= n <= 64
    ensures SparseRecord.SparseCells(LoneBool(s), JustBools(n), DenseOptions())
    ensures Lookup(LoneBool(s), s).Some? && SparseRecord.EntrySlot(LoneBool(s), JustBools(n), DenseOptions(), s) == s
  {
    hide JustBools, Bit, Typed, PlanFor, BoolSlots, LoneBool;
    var schema, other := JustBools(n), if s == 0 then 1 else 0;
    var present, plan := PresentOf(LoneBool(s), n), PlanOf(schema, DenseOptions());
    JustBoolsPlan(n, s);
    LoneBoolHolds(s, s);
    LoneBoolHolds(s, other);
    assert !present[other];
    forall k | 0 <= k < n && present[k]
      ensures k == s && Lookup(LoneBool(s), k).Some? && CellFits(Lookup(LoneBool(s), k).value, k, schema, plan)
    {
      LoneBoolHolds(s, k);
    }
  }

  lemma {:induction false} NothingWritten(items: seq<Item>)
    requires Valid(items) && forall k :: 0 <= k < |items| ==> items[k] == Item(1, [])
    ensures Body(items) == []
  {
    if |items| > 0 { NothingWritten(items[..|items| - 1]); }
  }

  lemma {:induction false} NoPadding(n: nat, s: nat)
    requires s < n && 2 <= n <= 64 && SparseRecord.SparseCells(LoneBool(s), JustBools(n), DenseOptions())
    ensures SparseRecord.WordPadding(LoneBool(s), JustBools(n), DenseOptions(), s) == 0
    ensures Body(SparseRecord.RunOf(LoneBool(s), JustBools(n), DenseOptions())[..s]) == []
  {
    hide JustBools, BoolSlots, SlotTyped, CellFits, PlanFor, SparseWord, CellItem;
    var items, present := SparseRecord.RunOf(LoneBool(s), JustBools(n), DenseOptions()), PresentOf(LoneBool(s), n);
    forall k | 0 <= k < s
      ensures items[k] == Item(1, [])
    {
      LoneBoolHolds(s, k);
      assert !present[k];
    }
    NothingWritten(items[..s]);
    RoundUpUnique(0, items[s].align, 0);
  }

  lemma {:induction false} TableIsShort(slots: seq<nat>, plan: Plan, added: bool)
    ensures |TableSlots(slots, plan, added)| <= |slots|
  {
    if |slots| > 0 { TableIsShort(slots[1..], plan, added || plan.InWord(slots[0])); }
  }

  lemma {:induction false} MaskIsShort(n: nat)
    ensures MaskLen(n) <= n + 1
  {
    if n > 7 { MaskIsShort(n - 7); }
  }

  lemma {:induction false} LoneBoolFits(n: nat, s: nat)
    requires s < n && 2 <= n <= 64 && SparseRecord.SparseCells(LoneBool(s), JustBools(n), DenseOptions())
    requires Lookup(LoneBool(s), s).Some? && SparseRecord.EntrySlot(LoneBool(s), JustBools(n), DenseOptions(), s) == s
    ensures SparseRecord.InTable(LoneBool(s), JustBools(n), DenseOptions(), s)
  {
    hide JustBools, Typed, CellFits, AndNot, MaskLen, PresentOf, PlanFor, SparseRecord.RunOf, SparseRecord.EntrySlot;
    var plan, present := PlanOf(JustBools(n), DenseOptions()), PresentOf(LoneBool(s), n);
    JustBoolsPlan(n, s);
    NoPadding(n, s);
    TableIsShort(PresentFrom(present, 0), plan, false);
    PresentAreFew(present, 0);
    MaskIsShort(n);
  }

  /**
   A record of `n` packed bools of which only the `s`-th is written: it is found exactly when it is one of
   the first eight. The ninth is read a byte past the one that holds it.
   */
  lemma {:induction false} LoneBoolFoundIff(n: nat, s: nat, data: Bytes, obj: nat)
    requires s < n && 2 <= n <= 64 && Written(LoneBool(s), JustBools(n), DenseOptions(), data, obj)
    ensures SparseRecord.SparseCells(LoneBool(s), JustBools(n), DenseOptions()) && Lookup(LoneBool(s), s).Some?
    ensures ResolveField(data, obj, s, JustBools(n), RowPlanOf(JustBools(n), DenseOptions().Wire()), true) ==
            Some(SparseRecord.SparseWrittenOffset(LoneBool(s), JustBools(n), DenseOptions(), obj, s))
            <==> s < 8
  {
    hide *;
    JustBoolsPlan(n, s);
    LoneBoolIsSparse(n, s);
    NoPadding(n, s);
    LoneBoolFits(n, s);
    LoneBoolLeads(n, s);
    SparseRecord.SparseResolvesIff(LoneBool(s), JustBools(n), DenseOptions(), data, obj, s);
  }

  lemma {:induction false} LoneBoolLeads(n: nat, s: nat)
    requires s < n && 2 <= n <= 64 && SparseRecord.SparseCells(LoneBool(s), JustBools(n), DenseOptions())
    requires Lookup(LoneBool(s), s).Some? && SparseRecord.EntrySlot(LoneBool(s), JustBools(n), DenseOptions(), s) == s
    requires SparseRecord.InTable(LoneBool(s), JustBools(n), DenseOptions(), s)
    ensures SparseRecord.Leads(LoneBool(s), JustBools(n), DenseOptions(), s) <==> s < 8
    ensures SparseRecord.Reached(LoneBool(s), JustBools(n), DenseOptions(), s) && DenseOptions().dense
  {
    hide JustBools, SparseRecord.SparseCells, SparseRecord.InTable, SparseRecord.WordPadding, SparseRecord.EntrySlot,
         BoolSlots;
    JustBoolsPlan(n, s);
    NoPadding(n, s);
  }

  // ── Packed bools without record headers ───────────────────────────────────

  function HeaderlessOptions(): Options { Options(false, true, true, false, false, 0.0, 0, 0, false, false) }

  function TrueBools(n: nat): Cells { if n == 0 then [] else TrueBools(n - 1) + [(n - 1, Bool(true))] }

  lemma {:induction false} TrueBoolsHold(n: nat, k: nat)
    ensures Lookup(TrueBools(n), k) == if k < n then Some(Bool(true)) else None
  {
    if n > 0 {
      assert TrueBools(n)[..|TrueBools(n)| - 1] == TrueBools(n - 1);
      TrueBoolsHold(n - 1, k);
    }
  }

  lemma {:induction false} HeaderlessPlan(n: nat, s: nat)
    requires s < n <= 7
    ensures var plan := PlanOf(JustBools(n), HeaderlessOptions());
            && plan.packed && plan.InWord(s) && Position(plan.boolSlots, s) == s && plan.BoolWordBytes() == 1 && plan.FirstBool() == Some(0)
            && !plan.reorder && !plan.denseAllowed && Typed(JustBools(n), plan)
  {
    hide JustBools, Bit, BoolSlots;
    AllSlots(JustBools(n));
    OwnPosition(BoolSlots(JustBools(n)), s);
  }

  lemma {:induction false} HeaderlessIsSparse(n: nat)
    requires 1 <= n <= 7
    ensures SparseRecord.SparseCells(TrueBools(n), JustBools(n), HeaderlessOptions())
    ensures PresentOf(TrueBools(n), n) == Repeat(true, n)
  {
    hide JustBools, Bit, Typed, PlanFor, BoolSlots, TrueBools;
    var schema, plan := JustBools(n), PlanOf(JustBools(n), HeaderlessOptions());
    HeaderlessPlan(n, 0);
    forall k | 0 <= k < n
      ensures Lookup(TrueBools(n), k).Some? && CellFits(Lookup(TrueBools(n), k).value, k, schema, plan)
    {
      TrueBoolsHold(n, k);
    }
  }

  lemma {:induction false} OneEntry(slots: seq<nat>, plan: Plan, added: bool)
    requires forall k :: 0 <= k < |slots| ==> plan.InWord(slots[k])
    ensures TableSlots(slots, plan, added) == if added || |slots| == 0 then [] else [slots[0]]
  {
    if |slots| > 0 { OneEntry(slots[1..], plan, true); }
  }

  /** The table has one entry, and its first byte is the 16 of the data start. */
  lemma {:induction false} FirstTableByte(n: nat, data: Bytes, obj: nat)
    requires 1 <= n <= 7 && SparseRecord.SparseCells(TrueBools(n), JustBools(n), HeaderlessOptions())
    requires Written(TrueBools(n), JustBools(n), HeaderlessOptions(), data, obj)
    ensures obj + 11 <= |data| && data[obj + 9] == 16
  {
    hide *;
    var cells, schema, opts := TrueBools(n), JustBools(n), HeaderlessOptions();
    HeaderlessEntries(n);
    HeaderlessEntryOffset(n, obj);
    HeaderlessCount(n);
    SparseRecord.EntryReads(cells, schema, opts, data, obj, 0);
    TwoBytesAt(data, obj + 9, 16);
  }

  /** The table of the record has the one entry of the first bool. */
  lemma {:induction false} HeaderlessEntries(n: nat)
    requires 1 <= n <= 7
    ensures SparseRecord.EntriesOf(TrueBools(n), JustBools(n), HeaderlessOptions()) == [0]
    ensures MaskLen(JustBools(n).Count()) == 1
  {
    hide JustBools, Bit, Typed, BoolSlots, TrueBools, PlanFor, Fits;
    var plan, slots := PlanOf(JustBools(n), HeaderlessOptions()), PresentFrom(PresentOf(TrueBools(n), n), 0);
    HeaderlessIsSparse(n);
    forall k | 0 <= k < |slots|
      ensures plan.InWord(slots[k])
    {
      assert slots[k] in slots;
      HeaderlessPlan(n, slots[k]);
    }
    OneEntry(slots, plan, false);
    assert slots[0] == 0;
  }

  lemma {:induction false} HeaderlessEntryOffset(n: nat, obj: nat)
    requires 1 <= n <= 7 && SparseRecord.SparseCells(TrueBools(n), JustBools(n), HeaderlessOptions())
    requires SparseRecord.EntriesOf(TrueBools(n), JustBools(n), HeaderlessOptions()) == [0]
    ensures SparseRecord.EntryOffset(TrueBools(n), JustBools(n), HeaderlessOptions(), obj, 0) == obj + 16
  {
    hide JustBools, Bit, Typed, BoolSlots, TrueBools, PlanFor, Fits, AlignTo, SparseRecord.EntriesOf, SparseItemOf;
    var items := SparseRecord.RunOf(TrueBools(n), JustBools(n), HeaderlessOptions());
    HeaderlessPlan(n, 0);
    assert MaskLen(n) == 1;
    AlignsAtPowers(11, 8);
    SmallPowers();
    RoundUpUnique(11, 8, 16);
    NothingWritten(items[..0]);
  }

  lemma {:induction false} TwoBytesAt(data: Bytes, off: nat, v: nat)
    requires ReadU(data, off, 2) == Some(v) && v < 256
    ensures off + 2 <= |data| && data[off] == v
  {
    TwoBytes(data[off..off + 2]);
  }

  lemma {:induction false} TwoBytes(s: Bytes)
    requires |s| == 2 && ReadLe(s) < 256
    ensures s[0] == ReadLe(s)
  {
    assert ReadLe(s[1..]) == s[1] + 256 * ReadLe(s[1..][1..]);
  }

  lemma {:induction false} OddMask(n: nat)
    requires 1 <= n <= 7
    ensures |MaskBytes(Repeat(true, n))| == 1 && MaskBytes(Repeat(true, n))[0] % 2 == 1
  {
  }

  lemma {:induction false} HeaderlessCount(n: nat)
    ensures JustBools(n).Count() == n && HeaderLen(HeaderlessOptions().dense) == 8
  {
  }

  /** The first mask byte is taken for a record header, and with its lowest bit set for a dense one's. */
  lemma {:induction false} MaskTakenForHeader(n: nat, data: Bytes, obj: nat)
    requires 1 <= n <= 7 && SparseRecord.SparseCells(TrueBools(n), JustBools(n), HeaderlessOptions())
    requires Written(TrueBools(n), JustBools(n), HeaderlessOptions(), data, obj)
    ensures obj + 8 < |data| && data[obj + 8] % 2 == 1
  {
    hide *;
    HeaderlessIsSparse(n);
    HeaderlessCount(n);
    SparseRecord.SparseParts(TrueBools(n), JustBools(n), HeaderlessOptions(), data, obj);
    OddMask(n);
    AtIndex(data, obj + 8, MaskBytes(Repeat(true, n)), 0);
  }

  lemma {:induction false} BitsOfSixteen(p: nat)
    requires p < 7
    ensures Bit(16, p) == (p == 4)
  {
    assert Bit(16, p) == if p == 0 then false else Bit(8, p - 1);
    assert p >= 2 ==> Bit(8, p - 1) == Bit(4, p - 2);
    assert p >= 3 ==> Bit(4, p - 2) == Bit(2, p - 3);
    assert p >= 4 ==> Bit(2, p - 3) == Bit(1, p - 4);
    assert p >= 5 ==> Bit(1, p - 4) == Bit(0, p - 5);
    BitZero(if p >= 5 then p - 5 else 0);
  }

  /**
   Packed bools without dense frames: of up to seven bools, all true, the getter takes the mask for a header
   and the offset table for the word, and reads back only the fifth.
   */
  lemma {:induction false} HeaderlessFoundIff(n: nat, s: nat, data: Bytes, obj: nat)
    requires s < n <= 7 && Written(TrueBools(n), JustBools(n), HeaderlessOptions(), data, obj)
    ensures Lookup(TrueBools(n), s) == Some(Bool(true))
    ensures GetCell(data, obj, s, JustBools(n), RowPlanOf(JustBools(n), HeaderlessOptions().Wire()), false) == Lookup(TrueBools(n), s) <==> s == 4
  {
    hide JustBools, Bit, Typed, BoolSlots, TrueBools, Written, AlignTo, SparseRecord.SparseCells;
    HeaderlessIsSparse(n);
    HeaderlessPlan(n, s);
    HeaderlessPlan(n, 0);
    TrueBoolsHold(n, s);
    FirstTableByte(n, data, obj);
    MaskTakenForHeader(n, data, obj);
    BitsOfSixteen(s);
    AlignsAtPowers(0, 1);
    RoundUpUnique(0, 1, 0);
  }

  // ── A promoted string read without its alignment ──────────────────────────

  /** An integer of `w` bytes and a promoted string. */
  function IntAndPromoted(w: nat): (s: Schema)
    requires SmallWidth(w)
    ensures s.Shaped() && s.Count() == 2 && s.sigils == [SIGIL_INT, SIGIL_STR] && s.CellWidth(0) == w
    ensures !s.IsPromoted(0) && s.IsPromoted(1) && s.pool == [[97]]
  {
    Schema([[], []], [SIGIL_INT, SIGIL_STR], [w, 0], [0, 1], [[97]])
  }

  function ReorderOptions(): Options { Options(true, false, true, false, true, 0.0, 0, 0, false, true) }

  function FiveAndA(): Cells { [(0, I64(5)), (1, Str([97]))] }

  lemma {:induction false} NoBoolSlots(schema: Schema)
    requires schema.sigils == [SIGIL_INT, SIGIL_STR]
    ensures BoolSlots(schema) == []
  {
    assert BoolSlotsFrom(schema.sigils, 2) == [] && BoolSlotsFrom(schema.sigils, 1) == [];
  }

  lemma {:induction false} FiveAndAIsDense(w: nat)
    requires SmallWidth(w)
    ensures DenseCells(FiveAndA(), IntAndPromoted(w), ReorderOptions())
    ensures !PlanOf(IntAndPromoted(w), ReorderOptions()).InWord(1)
  {
    hide IntAndPromoted, BoolSlots;
    var schema, cells := IntAndPromoted(w), FiveAndA();
    NoBoolSlots(schema);
    assert cells[..1] == [(0, I64(5))];
    assert Lookup(cells, 1) == Some(Str([97])) && Lookup(cells, 0) == Some(I64(5));
  }

  lemma {:induction false} IntThenString(w: nat, plan: Plan)
    requires SmallWidth(w) && plan.boolSlots == [] && !plan.packed && plan.reorder
    ensures FixedOrder(IntAndPromoted(w), plan) == [0] && Order(IntAndPromoted(w), plan) == [0, 1]
  {
    hide IntAndPromoted, AlignWidth;
    var schema := IntAndPromoted(w);
    assert FixedCells(schema, plan, 2) == [] && FixedCells(schema, plan, 1) == [];
    assert VarSlots(schema, 2) == [] && VarSlots(schema, 1) == [1];
    var cells := FixedCells(schema, plan, 0);
    assert |cells| == 1 && SortFixed(cells[1..]) == [];
  }

  /** The fixed region is the integer alone, and the string is looked for right behind it. */
  lemma {:induction false} TableOfTwo(w: nat)
    requires SmallWidth(w)
    ensures RowPlanOf(IntAndPromoted(w), ReorderOptions().Wire()) ==
            RowPlan(PlanFor(IntAndPromoted(w), ReorderOptions().Wire()), Some([Some(0), None]), Some(w))
    ensures Order(IntAndPromoted(w), PlanFor(IntAndPromoted(w), ReorderOptions().Wire())) == [0, 1]
    ensures |FixedOrder(IntAndPromoted(w), PlanFor(IntAndPromoted(w), ReorderOptions().Wire()))| == 1
  {
    hide IntAndPromoted, BoolSlots, AlignTo, Order, FixedOrder;
    var schema := IntAndPromoted(w);
    var plan := PlanFor(schema, ReorderOptions().Wire());
    NoBoolSlots(schema);
    IntThenString(w, plan);
    AlignsAtPowers(0, w);
    RoundUpUnique(0, w, 0);
    PrecomputeTwo(w, plan);
    assert NoOffsets(2)[0 := Some(0)] == [Some(0), None];
  }

  lemma {:induction false} PrecomputeTwo(w: nat, plan: Plan)
    requires SmallWidth(w) && plan.boolSlots == [] && plan.narrow && AlignTo(0, w) == 0
    ensures Precompute(IntAndPromoted(w), plan, [0, 1], 0, 0, NoOffsets(2)) == (NoOffsets(2)[0 := Some(0)], Some(w))
  {
    hide IntAndPromoted, AlignTo;
    var schema, out := IntAndPromoted(w), NoOffsets(2)[0 := Some(0)];
    assert Precompute(schema, plan, [0, 1], 1, w, out) == (out, Some(w));
    assert AdvanceFixed(0, 0, schema, plan) == w && CellOffset(0, 0, schema, plan) == 0;
  }

  lemma {:induction false} StringFollows(w: nat)
    requires SmallWidth(w)
    ensures Unaligned(1, IntAndPromoted(w), RowPlanOf(IntAndPromoted(w), ReorderOptions().Wire())) <==> w == 1
  {
    hide IntAndPromoted, RowPlanOf, PlanFor, Order, FixedOrder;
    TableOfTwo(w);
  }

  /**
   A promoted string behind an integer of `w` bytes, with the cells reordered: it is found exactly when the
   integer takes more than one byte.
   */
  lemma {:induction false} PromotedFoundIff(w: nat, data: Bytes, obj: nat)
    requires SmallWidth(w) && Written(FiveAndA(), IntAndPromoted(w), ReorderOptions(), data, obj)
    ensures DenseCells(FiveAndA(), IntAndPromoted(w), ReorderOptions())
    ensures ResolveField(data, obj, 1, IntAndPromoted(w), RowPlanOf(IntAndPromoted(w), ReorderOptions().Wire()), true) ==
            Some(WrittenOffset(FiveAndA(), IntAndPromoted(w), ReorderOptions(), obj, 1))
            <==> w != 1
  {
    hide *;
    FiveAndAIsDense(w);
    StringFollows(w);
    NothingPacked(w);
    DenseResolvesIff(FiveAndA(), IntAndPromoted(w), ReorderOptions(), data, obj, 1);
  }

  lemma {:induction false} NothingPacked(w: nat)
    requires SmallWidth(w) && DenseCells(FiveAndA(), IntAndPromoted(w), ReorderOptions())
    ensures !PlanOf(IntAndPromoted(w), ReorderOptions()).InWord(1)
    ensures InStep(FiveAndA(), IntAndPromoted(w), PlanOf(IntAndPromoted(w), ReorderOptions()))
  {
    hide IntAndPromoted, Typed, Complete, DenseItems, BoolSlots;
    WordOkIsInStep(FiveAndA(), IntAndPromoted(w), PlanOf(IntAndPromoted(w), ReorderOptions()));
  }

  // ── A row value beyond the offset table's reach ───────────────────────────

  function LongThenBool(len: nat): seq<RowObject.Write>
  {
    [RowObject.Write(0, Columns.Str(Zeros(len))), RowObject.Write(1, Columns.Bool(true))]
  }

  /** A bool behind a string of `len` bytes is found exactly when the string is of at most 65508 bytes. */
  lemma {:induction false} BoolBehindStringIff(len: nat, data: Bytes, obj: nat)
    requires At(data, obj, RowObject.Object(LongThenBool(len), 2))
    ensures ResolveSlot(data, obj, 1) == Some(obj + RowObject.Rel(LongThenBool(len), 2, 1)) <==> len <= 65508
  {
    hide RowObject.Object, At, ResolveSlot, RowObject.Rel;
    var writes := LongThenBool(len);
    assert writes[..1] == [RowObject.Write(0, Columns.Str(Zeros(len)))];
    assert RowObject.Lookup(writes, 1) == Some(Columns.Bool(true)) && RowObject.IndexOf(writes, 1) == 1;
    RelOfBool(len);
    RowObject.ResolvesIff(data, obj, writes, 2, 1);
  }

  lemma {:induction false} RelOfBool(len: nat)
    ensures RowObject.Rel(LongThenBool(len), 2, 1) < U16 <==> len <= 65508
  {
    var writes := LongThenBool(len);
    hide PastStrCell;
    assert writes[..1] == [RowObject.Write(0, Columns.Str(Zeros(len)))] && writes[..1][..0] == [];
    assert MaskLen(2) == 1;
    RoundUpUnique(13, 8, 16);
    assert RowObject.ValueStart(2) == 16;
    assert |RowObject.Values(writes[..1])| == |CompactCells.StrCell(Zeros(len), 4)| == PastStrCell(0, len, 4);
    PastLong(len);
  }

  lemma {:induction false} PastLong(len: nat)
    ensures PastStrCell(0, len, 4) < U16 - 16 <==> len <= 65508
  {
    assert (4 + len + (8 - (4 + len) % 8) % 8) % 8 == 0;
  }

  // ── A delta index with too many anchors ───────────────────────────────────

  /** Anchors of one record each, one more than their two-byte count can say: the deltas are not found. */
  lemma {:induction false} TooManyAnchors(data: Bytes, tailPtr: nat)
    requires TailIndex.DeltaTail(Repeat(0, 65536), 0, 1).Ok? ==> At(data, tailPtr, TailIndex.DeltaTail(Repeat(0, 65536), 0, 1).value)
    ensures TailIndex.DeltaTail(Repeat(0, 65536), 0, 1).Ok? && TailIndex.ParseDeltaTail(data, tailPtr).Ok?
    ensures TailIndex.ParseDeltaTail(data, tailPtr).value.deltasOff == tailPtr + 16
  {
    hide TailIndex.DeltaTail, TailIndex.ParseDeltaTail;
    TailIndex.DeltaTailBuilds(Repeat(0, 65536), 0, 1);
    TailIndex.DeltaTailParses(data, tailPtr, Repeat(0, 65536), 1, 0);
  }

  // ── A log recovered twice ─────────────────────────────────────────────────

  /** One span, of which a single byte survives, and one appended after recovery: recovering again finds neither. */
  lemma {:induction false} TornTailHides(f: Span.SpanFields)
    requires WalRecovery.Storable(f)
    ensures WalRecovery.Forgets([f], WalRecovery.DataStart() + 1, [f])
  {
    hide WalRecovery.RecoverFile, WalRecovery.WalHeader, WalRecovery.ContinuedIndex, WalRecovery.Continued,
         Span.SpanObject, WalRecovery.Storable;
    var spans := [f];
    WalRecovery.SpanIsObject(f);
    var objects := WalRecovery.SpanObjects(spans);
    assert objects[..1] == objects == [Span.SpanObject(f)] && objects[..0] == [];
    assert Join(objects) == Span.SpanObject(f);
    assert |WalRecovery.Log(spans)| == WalRecovery.DataStart() + |Span.SpanObject(f)|;
    WalRecovery.SecondRecovery(spans, WalRecovery.DataStart() + 1, spans);
  }

  // ── A record over the guard ───────────────────────────────────────────────

  /** A span whose payload alone is as long as the guard allows a record to be. */
  function HugeSpan(): Span.SpanFields
  {
    Span.SpanFields(0, 0, 0, None, [], [], 0, 0, 0, Some(Zeros(WalRecovery.MAX_RECORD_BYTES)))
  }

  lemma {:induction false} LastValueCounts(writes: seq<RowObject.Write>, n: nat)
    requires |writes| > 0
    ensures |RowObject.Object(writes, n)| == RowObject.ObjectLen(writes, n) >= 8 + |RowObject.ValueBytes(writes[|writes| - 1].cell)|
  {
    hide RowObject.ValueBytes, RowObject.TableBytes, MaskBytes;
    RowObject.HeadLen(writes, n, RowObject.ObjectLen(writes, n));
    RowObject.ValuesStep(writes, |writes| - 1);
    assert writes[..|writes|] == writes;
  }

  lemma {:induction false} HugeIsOverGuard()
    ensures !WalRecovery.Guarded(HugeSpan())
  {
    hide RowObject.Object, RowObject.ObjectLen;
    var w := Span.SpanWrites(HugeSpan());
    LastValueCounts(w, 10);
    assert w[9].cell == Columns.Binary(Zeros(WalRecovery.MAX_RECORD_BYTES));
  }

  /** A log that starts with a record over the guard is appended to and never recovered, whatever follows. */
  lemma {:induction false} OverGuardHidesAll(f: Span.SpanFields, more: seq<Span.SpanFields>)
    requires WalRecovery.AllStorable([f] + more) && !WalRecovery.Guarded(f)
    ensures WalRecovery.RecoverFile(WalRecovery.Log([f] + more)) == Ok(WalRecovery.Recovered([], 0))
  {
    hide WalRecovery.RecoverFile, WalRecovery.WalHeader, Join, Span.SpanObject, WalRecovery.AllStorable,
         WalRecovery.Guarded, WalRecovery.EntryAt;
    var file := WalRecovery.Log([f] + more);
    WalRecovery.CrashRecovery([f] + more, |file|);
    assert file[..|file|] == file;
    assert ([f] + more)[0] == f;
  }

  // ── A span that sealing does not keep ─────────────────────────────────────

  /** A span that starts at the time whose bytes are the object magic. */
  function MagicSpan(): Span.SpanFields
  {
    Span.SpanFields(0, 0, 0, None, [], [], CompactRecord.MAGIC_OBJ, 0, 0, None)
  }

  lemma {:induction false} ShortValues(writes: seq<RowObject.Write>)
    requires forall k :: 0 <= k < |writes| ==> |RowObject.ValueBytes(writes[k].cell)| <= 8
    ensures |RowObject.Values(writes)| <= 8 * |writes|
  {
    hide RowObject.ValueBytes;
    if |writes| > 0 { ShortValues(writes[..|writes| - 1]); }
  }

  lemma {:induction false} SmallValue(c: Columns.Cell)
    requires c.I64? || c.Time? || c.Null? || c == Columns.Str([])
    ensures |RowObject.ValueBytes(c)| <= 8
  {
    assert c.Str? ==> |CompactCells.StrCell([], 4)| == PastStrCell(0, 0, 4);
  }

  lemma {:induction false} ValuesOfTen()
    ensures RowObject.ValueStart(10) == 32
  {
    assert MaskLen(10) == 2;
    RoundUpUnique(30, 8, 32);
  }

  lemma {:induction false} MagicSpanFits()
    ensures SpanCodec.SpanFits(MagicSpan()) && !SpanCodec.CleanSpan(MagicSpan())
  {
    var w := Span.SpanWrites(MagicSpan());
    hide RowObject.Values, RowObject.ValueBytes, RowObject.ValueStart, Wrap;
    ValuesOfTen();
    MagicIsUnclean();
    forall k | 0 <= k < |w|
      ensures RowObject.Rel(w, 10, k) < U16
    {
      forall j | 0 <= j < k ensures |RowObject.ValueBytes(w[..k][j].cell)| <= 8 { SmallValue(w[j].cell); }
      ShortValues(w[..k]);
    }
  }

  lemma {:induction false} MagicIsUnclean()
    ensures !SpanCodec.CleanInt(CompactRecord.MAGIC_OBJ)
  {
    Pow256Values();
    ModUnique(CompactRecord.MAGIC_OBJ, U64, 0, CompactRecord.MAGIC_OBJ);
  }

  /** Decoding the record takes the time for a nested object, and what is encoded again is another record. */
  lemma {:induction false} MagicSpanIsLost()
    ensures var f, g := MagicSpan(), SpanCodec.DecodeSpan(Span.SpanObject(MagicSpan()), 0, Span.SpanSigils());
            g.Some? ==> Span.SpanObject(g.value) != Span.SpanObject(f)
  {
    hide *;
    MagicSpanFits();
    SpanCodec.SurvivesIff(MagicSpan());
  }
}
