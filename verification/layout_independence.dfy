/** The layouts of one table agree: the same table read through columns, through pages, or cell by cell. */
module LayoutIndependence {
  import opened Bytes
  import opened CompactSchema
  import opened SchemaHeader
  import opened Preamble
  import opened Columns
  import opened TableLayout
  import opened FileReader
  import opened ColumnarReads
  import opened PaxReads

  lemma {:induction false} FlattenHead(group: seq<Row>, rest: seq<seq<Row>>)
    ensures Flatten([group] + rest) == group + Flatten(rest)
    decreases |rest|
  {
    var all := [group] + rest;
    if |rest| == 0 {
      assert all[..0] == [];
    } else {
      FlattenHead(group, rest[..|rest| - 1]);
      assert all[..|all| - 1] == [group] + rest[..|rest| - 1];
    }
  }

  /** Grouping rows into pages of a size keeps every row, in order, and fills every page but the last. */
  lemma {:induction false} GroupsTile(rows: seq<Row>, pageSize: nat)
    requires pageSize > 0
    ensures Flatten(Groups(rows, pageSize)) == rows
    ensures |Groups(rows, pageSize)| <= |rows|
    ensures forall k :: 0 <= k < |Groups(rows, pageSize)| ==> 0 < |Groups(rows, pageSize)[k]| <= pageSize
    ensures forall k :: 0 <= k < |Groups(rows, pageSize)| - 1 ==> |Groups(rows, pageSize)[k]| == pageSize
    decreases |rows|
  {
    if |rows| == 0 {
    } else if |rows| <= pageSize {
      FlattenHead(rows, []);
      assert [rows] + [] == [rows];
    } else {
      GroupsTile(rows[pageSize..], pageSize);
      FlattenHead(rows[..pageSize], Groups(rows[pageSize..], pageSize));
    }
  }

  /** A table of columnar and of PAX files that their fields can describe. */
  ghost predicate TableFits(keys: seq<Bytes>, rows: seq<Row>, pageSize: nat, hash: Hash)
  {
    && 0 < |keys| && pageSize > 0 && |rows| < U32
    && ColumnarFits(keys, rows, hash)
    && PaxFits(keys, SigilsForKeys(|keys|, rows), Groups(rows, pageSize), pageSize, hash)
  }

  /**
   For every table, page size, record and key, the readers of the columnar and the PAX file find the same
   slot, and every getter, of the column's type or not, returns the same value.
   */
  lemma {:induction false} LayoutsAgree(keys: seq<Bytes>, rows: seq<Row>, pageSize: nat, hash: Hash, rec: nat,
      key: Bytes)
    requires TableFits(keys, rows, pageSize, hash) && rec < |rows|
    ensures Open(Columnar(keys, rows, hash).value).Ok? && Open(Pax(keys, rows, pageSize, hash).value).Ok?
    ensures var col, pax := Open(Columnar(keys, rows, hash).value).value, Open(Pax(keys, rows, pageSize, hash).value).value;
            && col.recordCount == pax.recordCount == |rows| && col.layout != RowLayout && pax.layout != RowLayout
            && col.Slot(key) == pax.Slot(key)
            && (col.Slot(key).Some? ==>
                  var slot := col.Slot(key).value;
                  && GetRaw(col, rec, slot) == GetRaw(pax, rec, slot)
                  && GetBool(col, rec, slot) == GetBool(pax, rec, slot)
                  && GetText(col, rec, slot) == GetText(pax, rec, slot))
  {
    hide Open, Columnar, SealedPax, GetRaw, GetBool, GetText, ColumnarFits, PaxFits, TableRaw, TableBool, TableText,
         SigilForKey, Groups, LastIndex, PaxReader;
    var sigils, groups := SigilsForKeys(|keys|, rows), Groups(rows, pageSize);
    GroupsTile(rows, pageSize);
    ColumnarRoundTrip(keys, rows, hash, rec, 0);
    var r := PaxReader(keys, sigils, groups, pageSize, hash);
    PaxRoundTrip(keys, sigils, groups, pageSize, hash, rec, 0);
    var slot := LastIndex(keys, key);
    if slot.Some? {
      ColumnarRoundTrip(keys, rows, hash, rec, slot.value);
      PaxRoundTrip(keys, sigils, groups, pageSize, hash, rec, slot.value);
    }
  }

  // ── Cells of the column's type ────────────────────────────────────────────

  /** The cell is absent, or a value of the column's type that the readers have a getter for. */
  predicate CellTyped(c: Cell, sigil: Byte)
  {
    match c
    case Absent => true
    case Null => false
    case Binary(_) => false
    case I64(_) => sigil == SIGIL_INT
    case F64(_) => sigil == SIGIL_FLOAT
    case Bool(_) => sigil == SIGIL_BOOL
    case Time(_) => sigil == SIGIL_TIME
    case Str(_) => sigil == SIGIL_STR
  }

  function Stored(c: Cell): Option<Cell> { if c.Absent? then None else Some(c) }

  lemma {:induction false} TypedReads(r: Reader, rec: nat, slot: nat, rows: seq<Row>)
    requires r.layout != RowLayout && rec < r.recordCount == |rows| && slot < |r.sigils|
    requires CellTyped(CellAt(rows[rec], slot), r.sigils[slot])
    requires GetRaw(r, rec, slot) == TableRaw(rows, r.sigils[slot], rec, slot)
    requires GetBool(r, rec, slot) == TableBool(rows, r.sigils[slot], rec, slot)
    requires GetText(r, rec, slot) == TableText(rows, r.sigils[slot], rec, slot)
    ensures GetTyped(r, rec, slot) == Stored(CellAt(rows[rec], slot))
  {
    hide GetRaw, GetBool, GetText, CellAt, Le, ReadI64, ReadLe;
    Pow256Values();
    match CellAt(rows[rec], slot)
    case Absent =>
    case I64(v) => I64RoundTrip(v);
    case Time(v) => I64RoundTrip(v);
    case F64(bits) => LeRoundTrip(bits, 8);
    case Bool(b) =>
    case Str(s) =>
    case Null =>
    case Binary(raw) =>
  }

  /** In both layouts a cell of its column's type reads back as itself, and as nothing exactly when absent. */
  lemma {:induction false} TableRoundTrip(keys: seq<Bytes>, rows: seq<Row>, pageSize: nat, hash: Hash, rec: nat,
      slot: nat)
    requires TableFits(keys, rows, pageSize, hash) && rec < |rows| && slot < |keys|
    requires CellTyped(CellAt(rows[rec], slot), SigilForKey(rows, slot))
    ensures Open(Columnar(keys, rows, hash).value).Ok? && Open(Pax(keys, rows, pageSize, hash).value).Ok?
    ensures var col, pax := Open(Columnar(keys, rows, hash).value).value, Open(Pax(keys, rows, pageSize, hash).value).value;
            && col.recordCount == pax.recordCount == |rows| && col.layout != RowLayout && pax.layout != RowLayout
            && |col.sigils| == |pax.sigils| == |keys|
            && GetTyped(col, rec, slot) == GetTyped(pax, rec, slot) == Stored(CellAt(rows[rec], slot))
  {
    hide Open, Columnar, SealedPax, GetRaw, GetBool, GetText, ColumnarFits, PaxFits, TableRaw, TableBool, TableText,
         SigilForKey, Groups, GetTyped, CellAt, PaxReader;
    var sigils, groups := SigilsForKeys(|keys|, rows), Groups(rows, pageSize);
    GroupsTile(rows, pageSize);
    ColumnarRoundTrip(keys, rows, hash, rec, slot);
    ColumnarOpens(keys, rows, hash);
    PaxRoundTrip(keys, sigils, groups, pageSize, hash, rec, slot);
    TypedReads(ColumnarReader(keys, rows, hash), rec, slot, rows);
    TypedReads(PaxReader(keys, sigils, groups, pageSize, hash), rec, slot, rows);
  }
}
