/** The conditions of the main results hold of the smallest table: one key, and one row with an integer in it. */
module Instances {
  import opened Bytes
  import opened CompactSchema
  import opened SchemaHeader
  import opened Preamble
  import opened Columns
  import opened TableLayout
  import opened FileReader
  import opened RowFile
  import opened RowObject
  import opened CompactFile
  import opened CompactRefines
  import opened ColumnarFromRows
  import opened CellRun
  import Bitmask
  import CompactCells
  import CompactDense
  import CompactRecord
  import SparseRecord
  import DenseWalk
  import Inference
  import ColumnarReads
  import PaxReads
  import LayoutIndependence
  import QueryAgrees
  import TailIndex
  import WireLength
  import WireOrder

  function OneKey(): seq<Bytes> { [[97]] }

  function OneRow(): seq<seq<Write>> { [[Write(0, I64(5))]] }

  function OneType(): Bytes { [SIGIL_INT] }

  function DensePacked(): Options { Options(true, true, true, false, false, 0.0, 0, 0, false, false) }

  // ── The row file ──────────────────────────────────────────────────────────

  lemma {:induction false} OneFlat()
    ensures Flat(OneRow()) == [Write(0, I64(5))]
    ensures Inference.TypedWrites(Flat(OneRow()), OneType())
  {
    assert Flat(OneRow()) == Flat([]) + [Write(0, I64(5))];
  }

  lemma {:induction false} OneName()
    ensures Names(OneKey()) == [97, 0] && NulFree(OneKey())
  {
    assert Names(OneKey()[1..]) == [];
  }

  lemma {:induction false} OneHeader(sigils: Bytes)
    requires |sigils| == 1
    ensures |BasicHeader(OneKey(), sigils)| == 8
  {
    OneName();
    RoundUpUnique(5, 8, 8);
  }

  lemma {:induction false} OneObject()
    ensures Writable(OneRow()[0], 1) && InReach(OneRow()[0], 1)
    ensures |Join(Objects(OneRow(), 1))| == 24
  {
    var w := OneRow()[0];
    assert w[..0] == [];
    assert Values(w) == Values([]) + ValueBytes(I64(5));
    assert Bitmask.MaskLen(1) == 1;
    RoundUpUnique(11, 8, 16);
    var o := Objects(OneRow(), 1);
    hide Object, Objects;
    OneObjectLen();
    assert o[..0] == [] && o == [Object(w, 1)];
    assert Join(o) == Join([]) + o[0];
  }

  lemma {:induction false} OneObjectLen()
    ensures |Object(OneRow()[0], 1)| == 24
  {
    hide RowObject.Head;
    var w := OneRow()[0];
    HeadLen(w, 1, ObjectLen(w, 1));
    assert w[..0] == [] && Values(w) == Values([]) + ValueBytes(I64(5));
    assert Bitmask.MaskLen(1) == 1;
    RoundUpUnique(11, 8, 16);
  }

  lemma {:induction false} OnePlainFits(sigils: Bytes, hash: Hash)
    requires |sigils| == 1
    ensures PlainFits(OneKey(), sigils, OneRow(), hash)
  {
    hide RowFileBytes, BasicHeader, Join, Objects, Object, TailIndex.ClassicEntries, Le, Writable, InReach, At;
    OneName();
    OneHeader(sigils);
    OneObject();
    var header, data := BasicHeader(OneKey(), sigils), Join(Objects(OneRow(), 1));
    FileParts(VERSION, PlainFlags(), header, data, ClassicIndex(RecordOffsets(Objects(OneRow(), 1), 32 + |header|)), hash);
  }

  // ── The compact file ──────────────────────────────────────────────────────

  function OneSchema(): Schema { Inference.SchemaOf(OneKey(), Flat(OneRow()), DensePacked()) }

  lemma {:induction false} NoBools(sigils: Bytes)
    requires sigils == [SIGIL_INT]
    ensures BoolSlotsFrom(sigils, 0) == []
  {
    assert BoolSlotsFrom(sigils, 1) == [];
  }

  lemma {:induction false} OneSchemaIs()
    ensures OneSchema().sigils == [SIGIL_INT] && OneSchema().pool == [] && BoolSlots(OneSchema()) == []
    ensures OneSchema().keys == OneKey() && OneSchema().Shaped()
    ensures Inferable(OneKey(), OneRow(), OneType(), DensePacked())
    ensures !OneSchema().IsPromoted(0)
  {
    hide Inference.AttrOf, Inference.IntWidth, Bit, Flat;
    OneFlat();
    Inference.SlotInferred(OneKey(), Flat(OneRow()), DensePacked(), OneType(), 0);
    Inference.SeenSigilIs(Flat(OneRow()), OneType(), 0);
    NoBools(OneSchema().sigils);
  }

  lemma {:induction false} OneExtendedHeader()
    ensures |ExtendedHeader(OneSchema(), DensePacked().Wire())| <= 12
    ensures Representable(OneSchema()) && Carried(OneSchema(), DensePacked().Wire()) == OneSchema()
  {
    hide Inference.SchemaOf, Le;
    OneName();
    OneSchemaIs();
    RoundUpUnique(5, 8, 8);
  }

  /** The row's frame resolves, and its bytes are few. */
  lemma {:induction false} OneRecord()
    ensures CellsFit(ToCells(OneRow()[0]), OneSchema(), DensePacked())
    ensures Resolvable(ToCells(OneRow()[0]), OneSchema(), DensePacked(), 0)
    ensures CompactRecord.DenseCells(ToCells(OneRow()[0]), OneSchema(), DensePacked())
  {
    hide Inference.SchemaOf, CellsFit, Resolvable, Inferable, SparseRecord.InTable, CompactRecord.DenseCells,
         SparseRecord.SparseCells;
    OneSchemaIs();
    RowFits(OneKey(), OneRow(), OneType(), DensePacked(), 0);
    var cells := ToCells(OneRow()[0]);
    assert CompactDense.Lookup(cells, 0).Some?;
    FittingRecordEncodes(cells, OneSchema(), DensePacked());
    EightBoolsResolve(cells, OneSchema(), DensePacked(), 0);
  }

  lemma {:induction false} OneItem(items: seq<Item>)
    requires Valid(items) && |items| == 1
    ensures |Body(items)| == |items[0].bytes|
  {
    assert Body(items[..0]) == [];
    RoundUpUnique(0, items[0].align, 0);
  }

  lemma {:induction false} OneRecordLen()
    requires CompactRecord.DenseCells(ToCells(OneRow()[0]), OneSchema(), DensePacked())
    ensures CompactRecord.EncodeRecord(ToCells(OneRow()[0]), OneSchema(), DensePacked()).Ok?
    ensures |CompactRecord.EncodeRecord(ToCells(OneRow()[0]), OneSchema(), DensePacked()).value| <= 17
  {
    hide Inference.SchemaOf, CompactRecord.EncodeRecord, CompactRecord.Frame, Body, BoolSlots, WireLength.Typed;
    var cells, plan := ToCells(OneRow()[0]), CompactRecord.PlanOf(OneSchema(), DensePacked());
    OneSchemaIs();
    CompactRecord.DenseEncodes(cells, OneSchema(), DensePacked());
    var items := CompactRecord.DenseItems(cells, OneSchema(), plan);
    assert CompactDense.Lookup(cells, 0) == Some(CompactCells.I64(5));
    CompactCells.FittingCellEncodes(CompactCells.I64(5), 0, OneSchema(), plan, 0);
    OneItem(items);
  }

  lemma {:induction false} OneRecords()
    ensures Records(OneRow(), OneSchema(), DensePacked()).Ok?
    ensures |Join(Records(OneRow(), OneSchema(), DensePacked()).value)| <= 17
  {
    hide Inference.SchemaOf, CompactRecord.EncodeRecord, CompactRecord.DenseCells, CellsFit, Resolvable, ToCells;
    OneSchemaIs();
    OneRecord();
    OneRecordLen();
    var rows, record := OneRow(), CompactRecord.EncodeRecord(ToCells(OneRow()[0]), OneSchema(), DensePacked()).value;
    assert rows[..0] == [];
    JoinSnoc([], record);
    assert [] + [record] == [record];
    assert Records(rows[..0], OneSchema(), DensePacked()) == Ok([]);
    assert Records(rows, OneSchema(), DensePacked()) == Ok([record]);
  }

  lemma {:induction false} OneIndex(records: seq<Bytes>, base: nat)
    requires |records| == 1
    ensures IndexOfFile(RecordOffsets(records, base), DensePacked()).Ok?
    ensures |IndexOfFile(RecordOffsets(records, base), DensePacked()).value| == 14
  {
    hide TailIndex.ClassicEntries, Join, Le;
  }

  lemma {:induction false} FileLen(schema: Schema, rows: seq<seq<Write>>, opts: Options, hash: Hash)
    requires schema.Shaped() && Records(rows, schema, opts).Ok?
    requires IndexOfFile(RecordOffsets(Records(rows, schema, opts).value, 32 + |ExtendedHeader(schema, opts.Wire())|), opts).Ok?
    ensures var header, records := ExtendedHeader(schema, opts.Wire()), Records(rows, schema, opts).value;
            && FileOf(schema, rows, opts, hash).Ok?
            && |FileOf(schema, rows, opts, hash).value| ==
                 44 + |header| + RoundUp(|Join(records)|, 8) + |IndexOfFile(RecordOffsets(records, 32 + |header|), opts).value|
  {
    hide Records, Join, RowFileBytes, ExtendedHeader, RecordOffsets, IndexOfFile, At, Options.Wire, PadTo;
    var header, records := ExtendedHeader(schema, opts.Wire()), Records(rows, schema, opts).value;
    FileParts(Version(opts), opts.Wire(), header, PadTo(Join(records), 8), IndexOfFile(RecordOffsets(records, 32 + |header|), opts).value, hash);
  }

  lemma {:induction false} OneCompactLen(hash: Hash)
    ensures FileOf(OneSchema(), OneRow(), DensePacked(), hash).Ok?
    ensures |FileOf(OneSchema(), OneRow(), DensePacked(), hash).value| < 200
  {
    hide *;
    OneSchemaIs();
    OneExtendedHeader();
    OneRecords();
    OneRowLen();
    OneIndex(Records(OneRow(), OneSchema(), DensePacked()).value, 32 + |ExtendedHeader(OneSchema(), DensePacked().Wire())|);
    FileLen(OneSchema(), OneRow(), DensePacked(), hash);
  }

  lemma {:induction false} OneRowLen()
    ensures |OneRow()| == 1
  {
  }

  lemma {:induction false} OneCompactFits(hash: Hash)
    ensures CompactFits(OneSchema(), OneRow(), DensePacked(), hash)
  {
    hide Inference.SchemaOf, FileOf, ExtendedHeader, Representable, Carried;
    OneSchemaIs();
    OneExtendedHeader();
    OneCompactLen(hash);
  }

  /** The conditions of `CompactRefinesPlain`, of the one record and of its key. */
  lemma {:induction false} RefinementApplies(hash: Hash)
    ensures BothFit(OneKey(), OneRow(), OneType(), DensePacked(), hash) && LastIndex(OneKey(), [97]) == Some(0)
    ensures Resolvable(ToCells(OneRow()[0]), Inference.SchemaOf(OneKey(), Flat(OneRow()), DensePacked()), DensePacked(), 0)
  {
    hide PlainFits, CompactFits, Resolvable, Inferable, ToCells, Inference.SchemaOf, Flat, SeenSigils;
    OneSchemaIs();
    OneRecord();
    OnePlainFits(SeenSigils(1, OneRow()), hash);
    OneCompactFits(hash);
  }

  // ── The columnar and the PAX file ─────────────────────────────────────────

  lemma {:induction false} OneTable()
    ensures TableRows(OneRow(), 1) == [[I64(5)]] && SigilsForKeys(1, [[I64(5)]]) == [SIGIL_INT]
  {
    assert RowObject.Lookup(OneRow()[0], 0) == Some(I64(5));
    assert TableRow(OneRow()[0], 1) == [I64(5)];
  }

  lemma {:induction false} OneSector()
    ensures Sectors([[I64(5)]], [SIGIL_INT], 1).Ok? && |Join(Sectors([[I64(5)]], [SIGIL_INT], 1).value)| == 16
  {
    hide Bitmap, FixedValues;
    var col := ColumnOf([[I64(5)]], 0);
    var sector := Column(col, SIGIL_INT).value;
    JoinSnoc([], sector);
    assert [] + [sector] == [sector];
    assert Sectors([[I64(5)]], [SIGIL_INT], 0) == Ok([]);
    assert Sectors([[I64(5)]], [SIGIL_INT], 1) == Ok([sector]);
  }

  lemma {:induction false} OneColumnarFits(hash: Hash)
    ensures ColumnarReads.ColumnarFits(OneKey(), [[I64(5)]], hash)
  {
    hide ColumnarFile, BasicHeader, Sectors, Join, At, Names, SigilForKey;
    OneName();
    OneTable();
    OneSector();
    OneHeader([SIGIL_INT]);
    ColumnarReads.ColumnarParts(BasicHeader(OneKey(), [SIGIL_INT]), Sectors([[I64(5)]], [SIGIL_INT], 1).value, 1, hash);
  }

  lemma {:induction false} OnePage()
    ensures PagesOf([[[I64(5)]]], 1, [SIGIL_INT]).Ok? && |Join(PagesOf([[[I64(5)]]], 1, [SIGIL_INT]).value)| == 48
  {
    hide Sectors, PageHeader, Le;
    OneSector();
    var groups := [[[I64(5)]]];
    assert groups[..0] == [];
    var page := Page(0, 0, 1, [SIGIL_INT], groups[0]).value;
    JoinSnoc([], page);
    assert [] + [page] == [page];
    assert PagesOf(groups[..0], 1, [SIGIL_INT]) == Ok([]);
    assert RowCount(groups[..0]) == 0;
    assert PagesOf(groups, 1, [SIGIL_INT]) == Ok([page]);
    RoundUpUnique(44, 8, 48);
  }

  lemma {:induction false} OnePaxFits(pageSize: nat, hash: Hash)
    ensures PaxReads.PaxFits(OneKey(), [SIGIL_INT], [[[I64(5)]]], pageSize, hash)
  {
    hide PaxFile, BasicHeader, PagesOf, Join, At, Names, PageEntries;
    OneName();
    OnePage();
    OneHeader([SIGIL_INT]);
    var groups := [[[I64(5)]]];
    assert groups[..0] == [];
    assert RowCount(groups) == RowCount([]) + 1;
    PaxReads.PaxParts(BasicHeader(OneKey(), [SIGIL_INT]), groups, PagesOf(groups, 1, [SIGIL_INT]).value, pageSize, hash);
  }

  /** The conditions of `LayoutsAgree` and of `QueriesAgree`. */
  lemma {:induction false} QueriesApply(pageSize: nat, hash: Hash)
    requires pageSize > 0
    ensures LayoutIndependence.TableFits(OneKey(), TableRows(OneRow(), 1), pageSize, hash)
    ensures QueryAgrees.AllFit(OneKey(), OneRow(), OneType(), pageSize, hash)
  {
    hide PlainFits, ColumnarReads.ColumnarFits, PaxReads.PaxFits, Inference.TypedWrites, Flat, SeenSigils, TableRow,
         SigilsForKeys;
    OneFlat();
    OneTable();
    OnePlainFits(SeenSigils(1, OneRow()), hash);
    OneColumnarFits(hash);
    OnePaxFits(pageSize, hash);
  }
}
