/**
 Predicates over a reader, and the iterator that lists the records they hold of. Each leaf reads one field
 straight from the bytes of the layout at hand.
 */
module Query {
  import opened Bytes
  import opened Bitmask
  import opened CompactSchema
  import opened Columns
  import opened TableLayout
  import opened FileReader
  import opened RowFile

  /** The comparisons of 64-bit floats, which nothing here looks into. */
  datatype FloatOps = FloatOps(eq: (Bits64, Bits64) -> bool, gt: (Bits64, Bits64) -> bool, lt: (Bits64, Bits64) -> bool)

  datatype Pred = EqBool(key: Bytes, b: bool) | EqStr(key: Bytes, s: Bytes)
                | EqI64(key: Bytes, i: Int64) | GtI64(key: Bytes, i: Int64) | LtI64(key: Bytes, i: Int64)
                | EqF64(key: Bytes, f: Bits64) | GtF64(key: Bytes, f: Bits64) | LtF64(key: Bytes, f: Bits64)
                | And(p: Pred, q: Pred) | Or(p: Pred, q: Pred) | Not(p: Pred) | AlwaysTrue

  // ── Reading a field for a test ────────────────────────────────────────────

  /** The eight bytes of a field; `at` is an object's offset in a row file and a record's index elsewhere. */
  function FieldRaw(r: Reader, at: nat, slot: nat): (raw: Option<Bytes>)
    ensures raw.Some? ==> |raw.value| == 8
  {
    if r.layout == RowLayout then
      var off :- ResolveSlot(r.data, at, slot);
      Get(r.data, off, 8)
    else if at < r.recordCount then GetRaw(r, at, slot)
    else None
  }

  function FieldBool(r: Reader, at: nat, slot: nat): Option<bool>
  {
    if r.layout == RowLayout then
      var off :- ResolveSlot(r.data, at, slot);
      if off < |r.data| then Some(r.data[off] != 0) else None
    else if at < r.recordCount then GetBool(r, at, slot)
    else None
  }

  /** The text of a field; a columnar reader does not ask for the column's sigil first. */
  function FieldText(r: Reader, at: nat, slot: nat): Option<Bytes>
  {
    if r.layout == RowLayout then
      var off :- ResolveSlot(r.data, at, slot);
      var len :- ReadU(r.data, off, 4);
      Get(r.data, off + 4, len)
    else if at >= r.recordCount then None
    else if r.layout == PaxLayout then GetText(r, at, slot)
    else
      var sector :- ColumnSector(r, slot).ToOption();
      var parts :- VarPartsOf(sector, r.recordCount).ToOption();
      RecordInBitmap(r.recordCount, at);
      if !ColBit(parts.bitmap, at) then None else VarAt(parts.offsets, parts.values, at)
  }

  /** A leaf's test of the field it read. */
  predicate LeafHolds(p: Pred, raw: Option<Bytes>, flag: Option<bool>, text: Option<Bytes>, ops: FloatOps)
    requires raw.Some? ==> |raw.value| == 8
  {
    Pow256Values();
    match p
    case EqBool(_, b) => flag == Some(b)
    case EqStr(_, s) => text == Some(s)
    case EqI64(_, i) => raw.Some? && ReadI64(raw.value) == i
    case GtI64(_, i) => raw.Some? && ReadI64(raw.value) > i
    case LtI64(_, i) => raw.Some? && ReadI64(raw.value) < i
    case EqF64(_, f) => raw.Some? && ops.eq(ReadLe(raw.value), f)
    case GtF64(_, f) => raw.Some? && ops.gt(ReadLe(raw.value), f)
    case LtF64(_, f) => raw.Some? && ops.lt(ReadLe(raw.value), f)
    case _ => false
  }

  /** `Predicate::test` */
  predicate Test(r: Reader, p: Pred, at: nat, ops: FloatOps)
  {
    match p
    case AlwaysTrue => true
    case And(a, b) => Test(r, a, at, ops) && Test(r, b, at, ops)
    case Or(a, b) => Test(r, a, at, ops) || Test(r, b, at, ops)
    case Not(a) => !Test(r, a, at, ops)
    case _ =>
      var slot := r.Slot(p.key);
      slot.Some? && LeafHolds(p, FieldRaw(r, at, slot.value), FieldBool(r, at, slot.value), FieldText(r, at, slot.value), ops)
  }

  // ── The iterator ──────────────────────────────────────────────────────────

  /** What a test is given for record `i`. */
  function Handle(r: Reader, i: nat): Option<nat>
  {
    if r.layout == RowLayout then RowOffset(r, i) else Some(i)
  }

  /** The records from `i` on that the predicate holds of, up to one whose offset cannot be read. */
  function Matches(r: Reader, p: Pred, ops: FloatOps, i: nat): seq<nat>
    decreases r.recordCount - i
  {
    if i >= r.recordCount then []
    else
      match Handle(r, i)
      case None => []
      case Some(at) => (if Test(r, p, at, ops) then [i] else []) + Matches(r, p, ops, i + 1)
  }

  /** `Records`, as `where_pred` returns it. */
  class Records {
    const reader: Reader
    const pred: Pred
    const ops: FloatOps
    var index: nat

    constructor (reader: Reader, pred: Pred, ops: FloatOps)
      ensures this.reader == reader && this.pred == pred && this.ops == ops && index == 0
    {
      this.reader, this.pred, this.ops, this.index := reader, pred, ops, 0;
    }

    /** `next`: the first match still to come, and the matches after it. */
    method Next() returns (found: Option<nat>)
      modifies this
      ensures found.Some? ==> Matches(reader, pred, ops, old(index)) == [found.value] + Matches(reader, pred, ops, index)
      ensures found.None? ==> Matches(reader, pred, ops, old(index)) == []
    {
      hide Test, Handle;
      while true
        invariant Matches(reader, pred, ops, old(index)) == Matches(reader, pred, ops, index)
        decreases reader.recordCount - index
      {
        if index >= reader.recordCount { return None; }
        var i := index;
        index := index + 1;
        var at := Handle(reader, i);
        if at.None? { return None; }
        if Test(reader, pred, at.value, ops) { return Some(i); }
      }
    }
  }

  // ── What a predicate means of a table row ─────────────────────────────────

  /** The value that a leaf of its type reads from a cell. */
  predicate CellHolds(p: Pred, c: Cell, ops: FloatOps)
  {
    match p
    case EqBool(_, b) => c == Bool(b)
    case EqStr(_, s) => c == Str(s)
    case EqI64(_, i) => c == I64(i) || c == Time(i)
    case GtI64(_, i) => (c.I64? && c.i > i) || (c.Time? && c.t > i)
    case LtI64(_, i) => (c.I64? && c.i < i) || (c.Time? && c.t < i)
    case EqF64(_, f) => c.F64? && ops.eq(c.bits, f)
    case GtF64(_, f) => c.F64? && ops.gt(c.bits, f)
    case LtF64(_, f) => c.F64? && ops.lt(c.bits, f)
    case _ => false
  }

  /** The row satisfies the predicate; a leaf on a missing key or an absent cell does not hold. */
  predicate Satisfies(p: Pred, keys: seq<Bytes>, row: Row, ops: FloatOps)
  {
    match p
    case AlwaysTrue => true
    case And(a, b) => Satisfies(a, keys, row, ops) && Satisfies(b, keys, row, ops)
    case Or(a, b) => Satisfies(a, keys, row, ops) || Satisfies(b, keys, row, ops)
    case Not(a) => !Satisfies(a, keys, row, ops)
    case _ =>
      var slot := LastIndex(keys, p.key);
      slot.Some? && CellHolds(p, CellAt(row, slot.value), ops)
  }

  /** The records from `i` on whose rows satisfy the predicate, in ascending order. */
  function Selected(p: Pred, keys: seq<Bytes>, rows: seq<Row>, ops: FloatOps, i: nat): seq<nat>
    decreases |rows| - i
  {
    if i >= |rows| then []
    else (if Satisfies(p, keys, rows[i], ops) then [i] else []) + Selected(p, keys, rows, ops, i + 1)
  }

  /** The selection lists exactly the records that satisfy the predicate, in order. */
  lemma {:induction false} SelectedIs(p: Pred, keys: seq<Bytes>, rows: seq<Row>, ops: FloatOps, i: nat)
    ensures forall k :: k in Selected(p, keys, rows, ops, i) <==> i <= k < |rows| && Satisfies(p, keys, rows[k], ops)
    ensures forall j, k :: 0 <= j < k < |Selected(p, keys, rows, ops, i)| ==>
              Selected(p, keys, rows, ops, i)[j] < Selected(p, keys, rows, ops, i)[k]
  {
    hide Satisfies, Selected;
    SelectedAre(p, keys, rows, ops, i);
    SelectedAscends(p, keys, rows, ops, i);
  }

  lemma {:induction false} SelectedAre(p: Pred, keys: seq<Bytes>, rows: seq<Row>, ops: FloatOps, i: nat)
    ensures forall k :: k in Selected(p, keys, rows, ops, i) <==> i <= k < |rows| && Satisfies(p, keys, rows[k], ops)
    decreases |rows| - i
  {
    hide Satisfies;
    if i < |rows| { SelectedAre(p, keys, rows, ops, i + 1); }
  }

  lemma {:induction false} SelectedAscends(p: Pred, keys: seq<Bytes>, rows: seq<Row>, ops: FloatOps, i: nat)
    ensures forall j, k :: 0 <= j < k < |Selected(p, keys, rows, ops, i)| ==>
              Selected(p, keys, rows, ops, i)[j] < Selected(p, keys, rows, ops, i)[k]
    decreases |rows| - i
  {
    hide Satisfies;
    if i < |rows| {
      SelectedAscends(p, keys, rows, ops, i + 1);
      SelectedAre(p, keys, rows, ops, i + 1);
      var rest := Selected(p, keys, rows, ops, i + 1);
      assert forall k :: 0 <= k < |rest| ==> rest[k] in rest;
    }
  }

  /** A leaf fits the type of the column it names: numbers, times, flags and texts each their own. */
  predicate LeafTyped(p: Pred, sigil: Byte)
  {
    match p
    case EqBool(_, _) => sigil == SIGIL_BOOL
    case EqStr(_, _) => sigil == SIGIL_STR
    case EqI64(_, _) => sigil == SIGIL_INT || sigil == SIGIL_TIME
    case GtI64(_, _) => sigil == SIGIL_INT || sigil == SIGIL_TIME
    case LtI64(_, _) => sigil == SIGIL_INT || sigil == SIGIL_TIME
    case EqF64(_, _) => sigil == SIGIL_FLOAT
    case GtF64(_, _) => sigil == SIGIL_FLOAT
    case LtF64(_, _) => sigil == SIGIL_FLOAT
    case _ => false
  }

  /** Every leaf that names a key has its column's type. */
  predicate PredTyped(p: Pred, keys: seq<Bytes>, types: Bytes)
    requires |types| == |keys|
  {
    match p
    case AlwaysTrue => true
    case And(a, b) => PredTyped(a, keys, types) && PredTyped(b, keys, types)
    case Or(a, b) => PredTyped(a, keys, types) && PredTyped(b, keys, types)
    case Not(a) => PredTyped(a, keys, types)
    case _ => LastIndex(keys, p.key).Some? ==> LeafTyped(p, types[LastIndex(keys, p.key).value])
  }
}
