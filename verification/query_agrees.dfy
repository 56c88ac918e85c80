/**
 Queries do not depend on the layout: over a v1.2 row file, a columnar file and a PAX file of the same typed
 rows, any tree of typed predicates selects exactly the records whose rows satisfy it, in order.
 */
module QueryAgrees {
  import opened Bytes
  import opened Bitmask
  import opened CompactSchema
  import opened SchemaHeader
  import opened Preamble
  import opened Columns
  import opened TableLayout
  import opened FileReader
  import opened ColumnarReads
  import opened PaxReads
  import opened LayoutIndependence
  import opened RowFile
  import opened CompactFile
  import opened CompactRefines
  import opened ColumnarFromRows
  import opened Query
  import Inference
  import RowObject
  import CompactCells

  // ── One field ─────────────────────────────────────────────────────────────

  /** What a layout reads of a field, against the cell of its column's type that the row holds. */
  predicate FieldAgrees(raw: Option<Bytes>, flag: Option<bool>, text: Option<Bytes>, c: Cell, sigil: Byte)
    requires raw.Some? ==> |raw.value| == 8
  {
    Pow256Values();
    match c
    case Absent => raw.None? && flag.None? && text.None?
    case I64(v) => sigil == SIGIL_INT && raw.Some? && ReadI64(raw.value) == v
    case Time(t) => sigil == SIGIL_TIME && raw.Some? && ReadI64(raw.value) == t
    case F64(bits) => sigil == SIGIL_FLOAT && raw.Some? && ReadLe(raw.value) == bits
    case Bool(b) => sigil == SIGIL_BOOL && flag == Some(b)
    case Str(s) => sigil == SIGIL_STR && text == Some(s)
    case _ => false
  }

  /** Every field of a record agrees with its row. */
  ghost predicate RecordAgrees(r: Reader, at: nat, row: Row, types: Bytes)
  {
    forall slot :: 0 <= slot < |types| ==>
      FieldAgrees(FieldRaw(r, at, slot), FieldBool(r, at, slot), FieldText(r, at, slot), CellAt(row, slot), types[slot])
  }

  lemma {:induction false} LeafMeans(p: Pred, raw: Option<Bytes>, flag: Option<bool>, text: Option<Bytes>, c: Cell,
      sigil: Byte, ops: FloatOps)
    requires raw.Some? ==> |raw.value| == 8
    requires FieldAgrees(raw, flag, text, c, sigil) && LeafTyped(p, sigil)
    ensures LeafHolds(p, raw, flag, text, ops) == CellHolds(p, c, ops)
  {
    hide ReadI64, ReadLe;
  }

  /** Over agreeing fields, a typed predicate tests what it means. */
  lemma {:induction false} TestMeans(r: Reader, p: Pred, at: nat, ops: FloatOps, keys: seq<Bytes>, row: Row,
      types: Bytes)
    requires r.keys == keys && |types| == |keys| && RecordAgrees(r, at, row, types) && PredTyped(p, keys, types)
    ensures Test(r, p, at, ops) == Satisfies(p, keys, row, ops)
  {
    hide FieldRaw, FieldBool, FieldText, FieldAgrees, LeafHolds, CellHolds, LeafTyped, CellAt, LastIndex;
    match p
    case AlwaysTrue =>
    case And(a, b) => TestMeans(r, a, at, ops, keys, row, types); TestMeans(r, b, at, ops, keys, row, types);
    case Or(a, b) => TestMeans(r, a, at, ops, keys, row, types); TestMeans(r, b, at, ops, keys, row, types);
    case Not(a) => TestMeans(r, a, at, ops, keys, row, types);
    case _ =>
      var slot := LastIndex(keys, p.key);
      if slot.Some? {
        LeafMeans(p, FieldRaw(r, at, slot.value), FieldBool(r, at, slot.value), FieldText(r, at, slot.value),
                  CellAt(row, slot.value), types[slot.value], ops);
      }
  }

  /** Where every record agrees, the iterator's matches are the selection. */
  lemma {:induction false} MatchesAre(r: Reader, p: Pred, ops: FloatOps, keys: seq<Bytes>, rows: seq<Row>,
      types: Bytes, i: nat)
    requires r.keys == keys && |types| == |keys| && PredTyped(p, keys, types) && r.recordCount == |rows|
    requires forall k :: 0 <= k < |rows| ==> Handle(r, k).Some? && RecordAgrees(r, Handle(r, k).value, rows[k], types)
    ensures Matches(r, p, ops, i) == Selected(p, keys, rows, ops, i)
    decreases |rows| - i
  {
    hide Test, Satisfies, Handle, RecordAgrees, PredTyped;
    if i < |rows| {
      TestMeans(r, p, Handle(r, i).value, ops, keys, rows[i], types);
      MatchesAre(r, p, ops, keys, rows, types, i + 1);
    }
  }

  // ── Row files ─────────────────────────────────────────────────────────────

  lemma {:induction false} ValueAgrees(r: Reader, at: nat, slot: nat, off: nat, c: Cell, sigil: Byte)
    requires r.layout == RowLayout && ResolveSlot(r.data, at, slot) == Some(off) && At(r.data, off, RowObject.ValueBytes(c))
    requires Inference.ColumnType(sigil) && RowObject.ValueTyped(c, sigil)
    ensures FieldAgrees(FieldRaw(r, at, slot), FieldBool(r, at, slot), FieldText(r, at, slot), c, sigil)
  {
    hide ResolveSlot, Le, ReadI64, ReadLe;
    Pow256Values();
    match c
    case I64(v) => I64RoundTrip(v); AtGet(r.data, off, Le64(v));
    case Time(t) => I64RoundTrip(t); AtGet(r.data, off, Le64(t));
    case F64(bits) => LeRoundTrip(bits, 8); AtGet(r.data, off, Le(bits, 8));
    case Bool(b) => AtHead(r.data, off, [if b then 1 else 0], Zeros(7));
    case Str(s) => RowObject.TextReads(r.data, off, s);
    case _ =>
  }

  /** The writes of a record, each of its column's type. */
  ghost predicate RecordTyped(writes: seq<RowObject.Write>, types: Bytes)
  {
    forall s :: 0 <= s < |types| && RowObject.Lookup(writes, s).Some? ==>
      Inference.ColumnType(types[s]) && RowObject.ValueTyped(RowObject.Lookup(writes, s).value, types[s])
  }

  lemma {:induction false} RowFieldAgrees(r: Reader, at: nat, writes: seq<RowObject.Write>, types: Bytes, slot: nat)
    requires r.layout == RowLayout && At(r.data, at, RowObject.Object(writes, |types|)) && slot < |types|
    requires RowObject.Writable(writes, |types|) && RowObject.InReach(writes, |types|) && RecordTyped(writes, types)
    ensures FieldAgrees(FieldRaw(r, at, slot), FieldBool(r, at, slot), FieldText(r, at, slot), CellAt(TableRow(writes, |types|), slot), types[slot])
  {
    hide RowObject.Object, RowObject.Lookup, RowObject.IndexOf, ResolveSlot, RowObject.Rel, RowObject.ValueBytes, At;
    RowObject.ResolvesWritten(r.data, at, writes, |types|, slot);
    if RowObject.Lookup(writes, slot).Some? {
      RowObject.ResolvesIff(r.data, at, writes, |types|, slot);
      ValueAgrees(r, at, slot, at + RowObject.Rel(writes, |types|, RowObject.IndexOf(writes, slot)), RowObject.Lookup(writes, slot).value, types[slot]);
    }
  }

  // ── Columnar and PAX files ────────────────────────────────────────────────

  /** Every cell of a table is absent or of its column's type. */
  ghost predicate TableTyped(rows: seq<Row>, types: Bytes)
  {
    forall k, s :: 0 <= k < |rows| && 0 <= s < |types| ==> CellAt(rows[k], s).Absent? || (CellTyped(CellAt(rows[k], s), types[s]))
  }

  /** A column with a cell present has its own type's sigil. */
  lemma {:induction false} SigilIsType(rows: seq<Row>, types: Bytes, k: nat, slot: nat)
    requires TableTyped(rows, types) && k < |rows| && slot < |types| && !CellAt(rows[k], slot).Absent?
    ensures SigilForKey(rows, slot) == types[slot]
  {
    hide CellAt;
    assert CellAt(rows[0], slot).Absent? || CellTyped(CellAt(rows[0], slot), types[slot]);
    if CellAt(rows[0], slot).Absent? {
      forall j, s | 0 <= j < |rows[1..]| && 0 <= s < |types|
        ensures CellAt(rows[1..][j], s).Absent? || CellTyped(CellAt(rows[1..][j], s), types[s])
      {
        assert rows[1..][j] == rows[j + 1];
      }
      assert rows[1..][k - 1] == rows[k];
      SigilIsType(rows[1..], types, k - 1, slot);
    }
  }

  lemma {:induction false} StoredAgrees(raw: Option<Bytes>, flag: Option<bool>, text: Option<Bytes>, rows: seq<Row>,
      sigil: Byte, rec: nat, slot: nat, type_: Byte)
    requires rec < |rows| && (CellAt(rows[rec], slot).Absent? || (CellTyped(CellAt(rows[rec], slot), type_) && sigil == type_))
    requires raw == TableRaw(rows, sigil, rec, slot) && flag == TableBool(rows, sigil, rec, slot) && text == TableText(rows, sigil, rec, slot)
    ensures FieldAgrees(raw, flag, text, CellAt(rows[rec], slot), type_)
  {
    hide CellAt, Le, ReadI64, ReadLe;
    Pow256Values();
    match CellAt(rows[rec], slot)
    case I64(v) => I64RoundTrip(v);
    case Time(t) => I64RoundTrip(t);
    case F64(bits) => LeRoundTrip(bits, 8);
    case _ =>
  }

  /** A columnar reader's text of a field, asked for without its sigil, is still nothing for an absent cell. */
  lemma {:induction false} ColumnarText(keys: seq<Bytes>, rows: seq<Row>, hash: Hash, rec: nat, slot: nat)
    requires ColumnarFits(keys, rows, hash) && slot < |keys| && rec < |rows| && Open(Columnar(keys, rows, hash).value).Ok?
    ensures var r := ColumnarReader(keys, rows, hash);
            && r.layout == ColumnarLayout && r.recordCount == |rows|
            && (CellAt(rows[rec], slot).Absent? ==> FieldText(r, rec, slot) == None)
            && (SigilForKey(rows, slot) == SIGIL_STR ==> FieldText(r, rec, slot) == TableText(rows, SIGIL_STR, rec, slot))
  {
    hide Open, Columnar, SigilForKey, NulFree, Column, ColumnSector, CellAt, VarPartsOf, ColBit, VarAt, BitmapLen,
         ColumnarFits;
    ColumnarOpens(keys, rows, hash);
    ColumnFound(keys, rows, hash, slot);
    var col, sigil := ColumnOf(rows, slot), SigilForKey(rows, slot);
    if IsVar(sigil) {
      VarReads(col, sigil, rec);
    }
    RecordInBitmap(|rows|, rec);
    AbsentBit(col, sigil, rec);
  }

  lemma {:induction false} AbsentBit(col: seq<Cell>, sigil: Byte, i: nat)
    requires i < |col| && Column(col, sigil).Ok?
    ensures i / 8 < BitmapLen(|col|)
    ensures VarPartsOf(Column(col, sigil).value, |col|).Ok? ==>
              ColBit(VarPartsOf(Column(col, sigil).value, |col|).value.bitmap, i) == !col[i].Absent?
  {
    hide Bitmap, BitmapLen, Fields, ColBit, VarValues, FixedValues;
    BitmapBit(Present(col), i);
    assert Column(col, sigil).value[..BitmapLen(|col|)] == Bitmap(Present(col));
  }

  lemma {:induction false} ColumnarAgrees(keys: seq<Bytes>, rows: seq<Row>, hash: Hash, types: Bytes, rec: nat)
    requires ColumnarFits(keys, rows, hash) && |types| == |keys| > 0 && TableTyped(rows, types) && rec < |rows|
    ensures Open(Columnar(keys, rows, hash).value).Ok?
    ensures RecordAgrees(ColumnarReader(keys, rows, hash), rec, rows[rec], types)
  {
    hide Open, Columnar, SigilForKey, NulFree, GetRaw, GetBool, GetText, TableRaw, TableBool, TableText, FieldAgrees,
         ColumnarFits, CellAt, ColumnarReader;
    ColumnarOpens(keys, rows, hash);
    var r := ColumnarReader(keys, rows, hash);
    forall slot | 0 <= slot < |types|
      ensures FieldAgrees(FieldRaw(r, rec, slot), FieldBool(r, rec, slot), FieldText(r, rec, slot), CellAt(rows[rec], slot), types[slot])
    {
      ColumnarFieldAgrees(keys, rows, hash, types, rec, slot);
    }
  }

  lemma {:induction false} ColumnarFieldAgrees(keys: seq<Bytes>, rows: seq<Row>, hash: Hash, types: Bytes, rec: nat,
      slot: nat)
    requires ColumnarFits(keys, rows, hash) && |types| == |keys| > 0 && TableTyped(rows, types) && rec < |rows| && slot < |types|
    requires Open(Columnar(keys, rows, hash).value).Ok?
    ensures var r := ColumnarReader(keys, rows, hash);
            FieldAgrees(FieldRaw(r, rec, slot), FieldBool(r, rec, slot), FieldText(r, rec, slot), CellAt(rows[rec], slot), types[slot])
  {
    hide Open, Columnar, SigilForKey, NulFree, GetRaw, GetBool, GetText, ColumnarFits, CellAt, ColumnarReader,
         FieldText;
    ColumnarRoundTrip(keys, rows, hash, rec, slot);
    ColumnarText(keys, rows, hash, rec, slot);
    var r, sigil := ColumnarReader(keys, rows, hash), SigilForKey(rows, slot);
    if !CellAt(rows[rec], slot).Absent? {
      SigilIsType(rows, types, rec, slot);
    }
    StoredAgrees(FieldRaw(r, rec, slot), FieldBool(r, rec, slot), TableText(rows, sigil, rec, slot), rows, sigil, rec, slot, types[slot]);
  }

  lemma {:induction false} PaxAgrees(keys: seq<Bytes>, sigils: Bytes, groups: seq<seq<Row>>, pageSize: nat,
      hash: Hash, types: Bytes, rec: nat)
    requires PaxFits(keys, sigils, groups, pageSize, hash) && rec < RowCount(groups) && |types| == |keys|
    requires TableTyped(Flatten(groups), types) && sigils == SigilsForKeys(|keys|, Flatten(groups))
    ensures RecordAgrees(PaxReader(keys, sigils, groups, pageSize, hash), rec, Flatten(groups)[rec], types)
  {
    hide PaxFits, GetRaw, GetBool, GetText, CellAt, PaxReader, SigilForKey, TableRaw, TableBool, TableText,
         FieldAgrees, Flatten;
    var r, rows := PaxReader(keys, sigils, groups, pageSize, hash), Flatten(groups);
    forall slot | 0 <= slot < |types|
      ensures FieldAgrees(FieldRaw(r, rec, slot), FieldBool(r, rec, slot), FieldText(r, rec, slot), CellAt(rows[rec], slot), types[slot])
    {
      PaxRoundTrip(keys, sigils, groups, pageSize, hash, rec, slot);
      if !CellAt(rows[rec], slot).Absent? {
        SigilIsType(rows, types, rec, slot);
      }
      StoredAgrees(FieldRaw(r, rec, slot), FieldBool(r, rec, slot), FieldText(r, rec, slot), rows, sigils[slot], rec, slot, types[slot]);
    }
  }

  // ── Main result ───────────────────────────────────────────────────────────

  /** The three files of the same rows, each within what its fields can describe. */
  ghost predicate AllFit(keys: seq<Bytes>, rows: seq<seq<RowObject.Write>>, types: Bytes, pageSize: nat, hash: Hash)
  {
    && |types| == |keys| && Inference.TypedWrites(Flat(rows), types)
    && PlainFits(keys, SeenSigils(|keys|, rows), rows, hash)
    && TableFits(keys, TableRows(rows, |keys|), pageSize, hash)
  }

  lemma {:induction false} RowsTyped(rows: seq<seq<RowObject.Write>>, types: Bytes)
    requires Inference.TypedWrites(Flat(rows), types)
    ensures forall k :: 0 <= k < |rows| ==> RecordTyped(rows[k], types)
    ensures TableTyped(TableRows(rows, |types|), types)
  {
    hide Flat, RowObject.Lookup, RowObject.IndexOf;
    forall k, s | 0 <= k < |rows| && 0 <= s < |types| && RowObject.Lookup(rows[k], s).Some?
      ensures Inference.ColumnType(types[s]) && RowObject.ValueTyped(RowObject.Lookup(rows[k], s).value, types[s])
    {
      var j := InFlat(rows, k, RowObject.IndexOf(rows[k], s));
    }
  }

  /** A file opens, and `where_pred` over it lists these records. */
  ghost predicate Answers(file: Result<Bytes>, p: Pred, ops: FloatOps, records: seq<nat>)
  {
    file.Ok? && Open(file.value).Ok? && Matches(Open(file.value).value, p, ops, 0) == records
  }

  lemma {:induction false} PlainMatches(keys: seq<Bytes>, rows: seq<seq<RowObject.Write>>, types: Bytes, hash: Hash,
      p: Pred, ops: FloatOps)
    requires |types| == |keys| && Inference.TypedWrites(Flat(rows), types) && PredTyped(p, keys, types)
    requires PlainFits(keys, SeenSigils(|keys|, rows), rows, hash)
    ensures Answers(Ok(PlainFile(keys, SeenSigils(|keys|, rows), rows, hash)), p, ops, Selected(p, keys, TableRows(rows, |keys|), ops, 0))
  {
    hide Open, PlainFile, BasicHeader, Objects, RowOffset, Flat, RowObject.Object, RowObject.Writable,
         RowObject.InReach, FieldRaw, FieldBool, FieldText, FieldAgrees, PredTyped, RecordTyped, KnownSigils, Join,
         TailPtr, TableTyped, NulFree;
    var sigils, table := SeenSigils(|keys|, rows), TableRows(rows, |keys|);
    var r := PlainReader(keys, sigils, rows, hash);
    PlainOpens(keys, sigils, rows, hash, |rows|);
    RowsTyped(rows, types);
    forall k | 0 <= k < |rows|
      ensures Handle(r, k).Some? && RecordAgrees(r, Handle(r, k).value, table[k], types)
    {
      PlainOpens(keys, sigils, rows, hash, k);
      PlainObject(keys, sigils, rows, hash, k);
      forall slot | 0 <= slot < |types|
        ensures FieldAgrees(FieldRaw(r, Handle(r, k).value, slot), FieldBool(r, Handle(r, k).value, slot), FieldText(r, Handle(r, k).value, slot),
                            CellAt(table[k], slot), types[slot])
      {
        RowFieldAgrees(r, Handle(r, k).value, rows[k], types, slot);
      }
    }
    MatchesAre(r, p, ops, keys, table, types, 0);
  }

  lemma {:induction false} FitsWritten(keys: seq<Bytes>, rows: seq<Row>, hash: Hash)
    requires ColumnarFits(keys, rows, hash)
    ensures Columnar(keys, rows, hash).Ok?
  {
    hide Columnar;
  }

  lemma {:induction false} PaxWritten(keys: seq<Bytes>, sigils: Bytes, groups: seq<seq<Row>>, pageSize: nat, hash: Hash)
    requires PaxFits(keys, sigils, groups, pageSize, hash)
    ensures SealedPax(keys, sigils, groups, pageSize, hash).Ok?
  {
    hide SealedPax, RowCount;
  }

  lemma {:induction false} ColumnarMatches(keys: seq<Bytes>, rows: seq<Row>, types: Bytes, hash: Hash, p: Pred,
      ops: FloatOps)
    requires |types| == |keys| > 0 && TableTyped(rows, types) && PredTyped(p, keys, types) && ColumnarFits(keys, rows, hash)
    ensures Answers(Columnar(keys, rows, hash), p, ops, Selected(p, keys, rows, ops, 0))
  {
    hide Open, Columnar, RecordAgrees, PredTyped, TableTyped, ColumnarFits;
    FitsWritten(keys, rows, hash);
    ColumnarOpens(keys, rows, hash);
    var r := ColumnarReader(keys, rows, hash);
    forall k | 0 <= k < |rows|
      ensures Handle(r, k).Some? && RecordAgrees(r, Handle(r, k).value, rows[k], types)
    {
      ColumnarAgrees(keys, rows, hash, types, k);
    }
    MatchesAre(r, p, ops, keys, rows, types, 0);
  }

  lemma {:induction false} PaxMatches(keys: seq<Bytes>, sigils: Bytes, groups: seq<seq<Row>>, pageSize: nat,
      types: Bytes, hash: Hash, p: Pred, ops: FloatOps)
    requires PaxFits(keys, sigils, groups, pageSize, hash) && |types| == |keys| && PredTyped(p, keys, types)
    requires TableTyped(Flatten(groups), types) && sigils == SigilsForKeys(|keys|, Flatten(groups))
    ensures Answers(SealedPax(keys, sigils, groups, pageSize, hash), p, ops, Selected(p, keys, Flatten(groups), ops, 0))
  {
    hide Open, RecordAgrees, PredTyped, TableTyped, PaxFits, Flatten, PaxReader, RowCount, SealedPax, PageCount;
    PaxWritten(keys, sigils, groups, pageSize, hash);
    PaxOpens(keys, sigils, groups, pageSize, hash);
    var r, rows := PaxReader(keys, sigils, groups, pageSize, hash), Flatten(groups);
    forall k | 0 <= k < |rows|
      ensures Handle(r, k).Some? && RecordAgrees(r, Handle(r, k).value, rows[k], types)
    {
      PaxAgrees(keys, sigils, groups, pageSize, hash, types, k);
    }
    MatchesAre(r, p, ops, keys, rows, types, 0);
  }

  lemma {:induction false} FitApart(keys: seq<Bytes>, rows: seq<seq<RowObject.Write>>, types: Bytes, pageSize: nat,
      hash: Hash)
    requires AllFit(keys, rows, types, pageSize, hash)
    ensures |types| == |keys| && Inference.TypedWrites(Flat(rows), types)
    ensures PlainFits(keys, SeenSigils(|keys|, rows), rows, hash) && TableFits(keys, TableRows(rows, |keys|), pageSize, hash)
  {
    hide PlainFits, TableFits, Inference.TypedWrites, Flat, SeenSigils, TableRows;
  }

  lemma {:induction false} TableAnswers(keys: seq<Bytes>, table: seq<Row>, types: Bytes, pageSize: nat, hash: Hash,
      p: Pred, ops: FloatOps)
    requires |types| == |keys| && TableTyped(table, types) && PredTyped(p, keys, types) && TableFits(keys, table, pageSize, hash)
    ensures Answers(Columnar(keys, table, hash), p, ops, Selected(p, keys, table, ops, 0))
    ensures Answers(Pax(keys, table, pageSize, hash), p, ops, Selected(p, keys, table, ops, 0))
  {
    hide Answers, Columnar, SealedPax, PredTyped, TableTyped, ColumnarFits, PaxFits, Selected, Groups, SigilsForKeys,
         Flatten;
    ColumnarMatches(keys, table, types, hash, p, ops);
    GroupsTile(table, pageSize);
    PaxMatches(keys, SigilsForKeys(|keys|, table), Groups(table, pageSize), pageSize, types, hash, p, ops);
  }

  /**
   For any typed rows, page size and tree of typed predicates, `where_pred` over the row file, the columnar
   file and the PAX file lists the same records: those whose rows satisfy the tree, in ascending order.
   */
  lemma {:induction false} QueriesAgree(keys: seq<Bytes>, rows: seq<seq<RowObject.Write>>, types: Bytes,
      pageSize: nat, hash: Hash, p: Pred, ops: FloatOps)
    requires AllFit(keys, rows, types, pageSize, hash) && PredTyped(p, keys, types)
    ensures var table := TableRows(rows, |keys|);
            var records := Selected(p, keys, table, ops, 0);
            && Answers(Ok(PlainFile(keys, SeenSigils(|keys|, rows), rows, hash)), p, ops, records)
            && Answers(Columnar(keys, table, hash), p, ops, records)
            && Answers(Pax(keys, table, pageSize, hash), p, ops, records)
  {
    hide *;
    FitApart(keys, rows, types, pageSize, hash);
    RowsTyped(rows, types);
    PlainMatches(keys, rows, types, hash, p, ops);
    TableAnswers(keys, TableRows(rows, |keys|), types, pageSize, hash, p, ops);
  }
}
