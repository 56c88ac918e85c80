/**
 Compact files, and the main result about them: a compact file of typed rows gives, for every record and
 key, the cell that the v1.2 file of the same rows gives.
 */
module CompactFile {
  import opened Bytes
  import opened CompactSchema
  import opened SchemaHeader
  import opened Preamble
  import opened TailIndex
  import opened FileReader
  import opened RowFile
  import opened WireLength
  import opened CompactCells
  import opened CompactRecord
  import opened Inference
  import opened RowObject
  import Columns
  import DenseWalk
  import CompactDense
  import CompactSparse
  import SparseRecord

  // ── Encoding the buffered records ─────────────────────────────────────────

  /** The writes of every record, in order. */
  function Flat(rows: seq<seq<Write>>): seq<Write>
  {
    if |rows| == 0 then [] else Flat(rows[..|rows| - 1]) + rows[|rows| - 1]
  }

  /** The cells a record's frame buffers. */
  function ToCells(writes: seq<Write>): (cells: CompactDense.Cells)
    ensures |cells| == |writes|
  {
    seq(|writes|, k requires 0 <= k < |writes| => (writes[k].slot, ToCompact(writes[k].cell)))
  }

  function Records(rows: seq<seq<Write>>, schema: Schema, opts: Options): (r: Result<seq<Bytes>>)
    requires schema.Shaped()
    ensures r.Ok? ==> |r.value| == |rows|
  {
    if |rows| == 0 then Ok([])
    else
      var front :- Records(rows[..|rows| - 1], schema, opts);
      var record :- EncodeRecord(ToCells(rows[|rows| - 1]), schema, opts);
      Ok(front + [record])
  }

  function Version(opts: Options): nat
  {
    if opts.dense || opts.packed || opts.narrow || opts.delta then VERSION_V13 else VERSION
  }

  function IndexOfFile(offs: seq<nat>, opts: Options): Result<Bytes>
  {
    if opts.delta then DeltaIndex(offs, opts.blockSize) else Ok(ClassicIndex(offs))
  }

  /** `finish` in compact mode, with the schema it inferred; an error stands for its `expect`. */
  function FileOf(schema: Schema, rows: seq<seq<Write>>, opts: Options, hash: Hash): Result<Bytes>
    requires schema.Shaped()
  {
    var header := ExtendedHeader(schema, opts.Wire());
    var records :- Records(rows, schema, opts);
    var index :- IndexOfFile(RecordOffsets(records, 32 + |header|), opts);
    Ok(RowFileBytes(Version(opts), opts.Wire(), header, PadTo(Join(records), 8), index, hash))
  }

  /** What `finish` writes in compact mode, of data of any size. */
  function StoredCompact(schema: Schema, rows: seq<seq<Write>>, opts: Options, hash: Hash): Result<Bytes>
    requires schema.Shaped()
  {
    var header := ExtendedHeader(schema, opts.Wire());
    var records :- Records(rows, schema, opts);
    var index :- IndexOfFile(StoredOffsets(records, 32 + |header|), opts);
    Ok(RowFileBytes(Version(opts), opts.Wire(), header, PadTo(Join(records), 8), index, hash))
  }

  lemma {:induction false} StoredIsFile(schema: Schema, rows: seq<seq<Write>>, opts: Options, hash: Hash)
    requires schema.Shaped() && (Records(rows, schema, opts).Ok? ==> StartsBelow(Records(rows, schema, opts).value))
    ensures StoredCompact(schema, rows, opts, hash) == FileOf(schema, rows, opts, hash)
  {
    hide Records, RowFileBytes, ExtendedHeader, IndexOfFile, Join, StartsBelow, StoredOffsets, RecordOffsets, PadTo,
         Options.Wire;
    if Records(rows, schema, opts).Ok? {
      StoredOffsetsIff(Records(rows, schema, opts).value, 32 + |ExtendedHeader(schema, opts.Wire())|);
    }
  }

  function CompactFileBytes(keys: seq<Bytes>, rows: seq<seq<Write>>, opts: Options, hash: Hash): Result<Bytes>
  {
    FileOf(SchemaOf(keys, Flat(rows), opts), rows, opts, hash)
  }

  lemma {:induction false} RecordIs(rows: seq<seq<Write>>, schema: Schema, opts: Options, k: nat)
    requires schema.Shaped() && Records(rows, schema, opts).Ok? && k < |rows|
    ensures EncodeRecord(ToCells(rows[k]), schema, opts) == Ok(Records(rows, schema, opts).value[k])
    decreases |rows|
  {
    hide EncodeRecord;
    if k < |rows| - 1 { RecordIs(rows[..|rows| - 1], schema, opts, k); }
  }

  // ── Every buffered cell is admitted ───────────────────────────────────────

  /** The cells of a record fit their columns. */
  ghost predicate CellsFit(cells: CompactDense.Cells, schema: Schema, opts: Options)
  {
    schema.Shaped() && Typed(schema, PlanOf(schema, opts)) &&
    forall s :: 0 <= s < schema.Count() && CompactDense.Lookup(cells, s).Some? ==>
      CellFits(CompactDense.Lookup(cells, s).value, s, schema, PlanOf(schema, opts))
  }

  /** Fitting cells never meet an encode error. */
  lemma {:induction false} FittingRecordEncodes(cells: CompactDense.Cells, schema: Schema, opts: Options)
    requires CellsFit(cells, schema, opts)
    ensures EncodeRecord(cells, schema, opts).Ok?
    ensures opts.dense && AllTrue(PresentOf(cells, schema.Count())) <==> DenseCells(cells, schema, opts)
    ensures !(opts.dense && AllTrue(PresentOf(cells, schema.Count()))) <==> SparseRecord.SparseCells(cells, schema, opts)
  {
    hide EncodeRecord, Typed, CellFits, PlanFor, CompactDense.Lookup;
    var present := PresentOf(cells, schema.Count());
    if opts.dense && AllTrue(present) {
      forall s | 0 <= s < schema.Count()
        ensures CompactDense.Lookup(cells, s).Some? && CellFits(CompactDense.Lookup(cells, s).value, s, schema, PlanOf(schema, opts))
      {
        assert present[s];
      }
      assert CompactDense.Complete(cells, schema, PlanOf(schema, opts));
      DenseEncodes(cells, schema, opts);
    } else {
      if opts.dense {
        var s :| 0 <= s < |present| && !present[s];
        assert CompactDense.Lookup(cells, s).None?;
      }
      SparseRecord.SparseEncodes(cells, schema, opts);
    }
  }

  lemma {:induction false} LookupCells(writes: seq<Write>, slot: nat)
    ensures CompactDense.Lookup(ToCells(writes), slot) ==
            if Lookup(writes, slot).None? then None else Some(ToCompact(Lookup(writes, slot).value))
  {
    if |writes| > 0 {
      assert ToCells(writes)[..|writes| - 1] == ToCells(writes[..|writes| - 1]);
      LookupCells(writes[..|writes| - 1], slot);
    }
  }

  lemma {:induction false} InFlat(rows: seq<seq<Write>>, rec: nat, k: nat) returns (j: nat)
    requires rec < |rows| && k < |rows[rec]|
    ensures j < |Flat(rows)| && Flat(rows)[j] == rows[rec][k]
    decreases |rows|
  {
    if rec < |rows| - 1 {
      j := InFlat(rows[..|rows| - 1], rec, k);
    } else {
      j := |Flat(rows[..|rows| - 1])| + k;
    }
  }

  /** Rows whose columns each have one type, and whose inferred schema the format can hold. */
  ghost predicate Inferable(keys: seq<Bytes>, rows: seq<seq<Write>>, types: Bytes, opts: Options)
  {
    && |types| == |keys| && TypedWrites(Flat(rows), types)
    && FewBools(SchemaOf(keys, Flat(rows), opts), opts) && |SchemaOf(keys, Flat(rows), opts).pool| <= U16
  }

  lemma {:induction false} RowFits(keys: seq<Bytes>, rows: seq<seq<Write>>, types: Bytes, opts: Options, rec: nat)
    requires Inferable(keys, rows, types, opts) && rec < |rows|
    ensures CellsFit(ToCells(rows[rec]), SchemaOf(keys, Flat(rows), opts), opts)
  {
    hide SchemaOf, Typed, CellFits, PlanFor, FewBools, TypedWrites, Lookup, IndexOf, CompactDense.Lookup, ToCells,
         Flat;
    var h := Flat(rows);
    var schema := SchemaOf(keys, h, opts);
    InferredIsTyped(keys, h, opts, types);
    forall s | 0 <= s < schema.Count() && CompactDense.Lookup(ToCells(rows[rec]), s).Some?
      ensures CellFits(CompactDense.Lookup(ToCells(rows[rec]), s).value, s, schema, PlanOf(schema, opts))
    {
      LookupCells(rows[rec], s);
      var j := InFlat(rows, rec, IndexOf(rows[rec], s));
      InferredAdmits(keys, h, opts, types, j);
    }
  }

  lemma {:induction false} RecordsEncode(rows: seq<seq<Write>>, schema: Schema, opts: Options)
    requires schema.Shaped() && forall k :: 0 <= k < |rows| ==> CellsFit(ToCells(rows[k]), schema, opts)
    ensures Records(rows, schema, opts).Ok?
  {
    hide EncodeRecord, CellsFit, ToCells;
    if |rows| > 0 {
      RecordsEncode(rows[..|rows| - 1], schema, opts);
      FittingRecordEncodes(ToCells(rows[|rows| - 1]), schema, opts);
    }
  }

  lemma {:induction false} OffsetsNear(records: seq<Bytes>, base: nat, blockSize: nat, k: nat)
    requires |Join(records)| < U32 && k < |records|
    ensures NearAnchor(RecordOffsets(records, base), Block(blockSize), k)
  {
    hide Join;
    var a := Block(blockSize);
    JoinMono(records, BlockStart(a, k), k);
    JoinMono(records, k, |records|);
    assert records[..|records|] == records;
  }

  /**
   Whatever was buffered, `finish` meets neither an encode error nor a delta overflow: the inferred schema
   admits every cell, and offsets below 2^32 are near their anchors.
   */
  lemma {:induction false} FinishNeverFails(keys: seq<Bytes>, rows: seq<seq<Write>>, types: Bytes, opts: Options,
      hash: Hash)
    requires Inferable(keys, rows, types, opts)
    ensures var records := Records(rows, SchemaOf(keys, Flat(rows), opts), opts);
            records.Ok? && (|Join(records.value)| < U32 ==> CompactFileBytes(keys, rows, opts, hash).Ok?)
  {
    hide SchemaOf, EncodeRecord, ToCells, ExtendedHeader, RowFileBytes, Join, Deltas, NearAnchor, Inferable, Flat,
         Records;
    var schema := SchemaOf(keys, Flat(rows), opts);
    forall k | 0 <= k < |rows|
      ensures CellsFit(ToCells(rows[k]), schema, opts)
    {
      RowFits(keys, rows, types, opts, k);
    }
    RecordsEncode(rows, schema, opts);
    var records := Records(rows, schema, opts).value;
    if |Join(records)| < U32 {
      var offs := RecordOffsets(records, 32 + |ExtendedHeader(schema, opts.Wire())|);
      forall k | 0 <= k < |offs|
        ensures NearAnchor(offs, Block(opts.blockSize), k)
      {
        OffsetsNear(records, 32 + |ExtendedHeader(schema, opts.Wire())|, opts.blockSize, k);
      }
      DeltasSucceed(offs, Block(opts.blockSize), 0);
    }
  }

  // ── Opening a compact file ────────────────────────────────────────────────

  /** A compact file that its fields can describe; at least one wire flag is set. */
  ghost predicate CompactFits(schema: Schema, rows: seq<seq<Write>>, opts: Options, hash: Hash)
  {
    && schema.Shaped() && Representable(schema) && Carried(schema, opts.Wire()) == schema && opts.Wire().Compact()
    && |rows| < U32 && opts.blockSize < U32 && (opts.delta ==> AnchorCount(|rows|, Block(opts.blockSize)) < U16)
    && FileOf(schema, rows, opts, hash).Ok? && |FileOf(schema, rows, opts, hash).value| < U64
  }

  /** The reader that opening the file gives. */
  function CompactReader(schema: Schema, rows: seq<seq<Write>>, opts: Options, hash: Hash): Reader
    requires CompactFits(schema, rows, opts, hash)
  {
    var file := FileOf(schema, rows, opts, hash).value;
    var tail := TailPtr(ExtendedHeader(schema, opts.Wire()), PadTo(Join(Records(rows, schema, opts).value), 8));
    var delta := if opts.delta then ParseDeltaTail(file, tail).ToOption() else None;
    Reader(file, opts.Wire(), schema.keys, schema.sigils, Some(schema), |rows|, if opts.delta then tail else tail + 4, delta, RowLayout, [])
  }

  /** What a file of records is made of. */
  lemma {:induction false} FileOfIs(schema: Schema, rows: seq<seq<Write>>, opts: Options, hash: Hash)
      returns (records: seq<Bytes>, index: Bytes)
    requires schema.Shaped() && FileOf(schema, rows, opts, hash).Ok?
    ensures Records(rows, schema, opts) == Ok(records) && |records| == |rows|
    ensures FileOf(schema, rows, opts, hash) ==
            Ok(RowFileBytes(Version(opts), opts.Wire(), ExtendedHeader(schema, opts.Wire()), PadTo(Join(records), 8), index, hash))
  {
    hide RowFileBytes, ExtendedHeader, Join, Records, IndexOfFile, Options.Wire, PadTo;
    records := Records(rows, schema, opts).value;
    index := IndexOfFile(RecordOffsets(records, 32 + |ExtendedHeader(schema, opts.Wire())|), opts).value;
  }

  /** The header and the records of a row file whose data is padded. */
  lemma {:induction false} PaddedRecordAt(version: nat, flags: WireFlags, header: Bytes, records: seq<Bytes>,
      index: Bytes, hash: Hash, k: nat)
    requires k < |records|
    ensures var file := RowFileBytes(version, flags, header, PadTo(Join(records), 8), index, hash);
            At(file, 32, header) && At(file, 32 + |header| + |Join(records[..k])|, records[k])
  {
    hide RowFileBytes, Join, At;
    var file, base := RowFileBytes(version, flags, header, PadTo(Join(records), 8), index, hash), 32 + |header|;
    FileParts(version, flags, header, PadTo(Join(records), 8), index, hash);
    AtConcat(file, base, Join(records), Zeros(RoundUp(|Join(records)|, 8) - |Join(records)|));
    JoinAt(file, base, records, k);
  }

  lemma {:induction false} CompactRecordAt(schema: Schema, rows: seq<seq<Write>>, opts: Options, hash: Hash, k: nat)
    requires CompactFits(schema, rows, opts, hash) && k < |rows|
    ensures var records, base := Records(rows, schema, opts).value, 32 + |ExtendedHeader(schema, opts.Wire())|;
            && base + |Join(records[..k])| < U64
            && At(FileOf(schema, rows, opts, hash).value, base + |Join(records[..k])|, records[k])
            && At(FileOf(schema, rows, opts, hash).value, 32, ExtendedHeader(schema, opts.Wire()))
  {
    hide FileOf, RowFileBytes, ExtendedHeader, Join, Records, IndexOfFile, Representable, Carried, WireFlags.Compact,
         Options.Wire, PadTo, AnchorCount;
    var records, index := FileOfIs(schema, rows, opts, hash);
    PaddedRecordAt(Version(opts), opts.Wire(), ExtendedHeader(schema, opts.Wire()), records, index, hash, k);
    AtInside(FileOf(schema, rows, opts, hash).value, 32 + |ExtendedHeader(schema, opts.Wire())| + |Join(records[..k])|, records[k]);
  }

  lemma {:induction false} CompactSchemaReads(schema: Schema, rows: seq<seq<Write>>, opts: Options, hash: Hash)
    requires CompactFits(schema, rows, opts, hash) && |rows| > 0
    ensures ReadSchema(FileOf(schema, rows, opts, hash).value, opts.Wire()) ==
            Ok(Embedded(schema.keys, schema.sigils, Some(schema)))
  {
    hide FileOf, ExtendedHeader, ParseExtended, Representable, Carried, WireFlags.Compact, At;
    CompactRecordAt(schema, rows, opts, hash, 0);
    ExtendedRoundTrip(FileOf(schema, rows, opts, hash).value, 32, schema, opts.Wire());
  }

  lemma {:induction false} CompactOffsets(schema: Schema, rows: seq<seq<Write>>, opts: Options, hash: Hash, k: nat)
    requires CompactFits(schema, rows, opts, hash) && k < |rows|
    ensures RecordOffsets(Records(rows, schema, opts).value, 32 + |ExtendedHeader(schema, opts.Wire())|)[k] < U64
  {
    hide FileOf, ExtendedHeader, Representable, Carried, WireFlags.Compact, At, Join, Records;
    CompactRecordAt(schema, rows, opts, hash, k);
    CompactNumbers(schema, rows, opts, hash);
    var records, base := Records(rows, schema, opts).value, 32 + |ExtendedHeader(schema, opts.Wire())|;
    assert RecordOffsets(records, base)[k] == base + |Join(records[..k])|;
  }

  lemma {:induction false} CompactIndexable(schema: Schema, rows: seq<seq<Write>>, opts: Options, hash: Hash)
    requires CompactFits(schema, rows, opts, hash)
    ensures Indexable(RecordOffsets(Records(rows, schema, opts).value, 32 + |ExtendedHeader(schema, opts.Wire())|), opts.blockSize)
  {
    hide FileOf, ExtendedHeader, Representable, Carried, WireFlags.Compact, At, Join, Records, CompactFits,
         AnchorCount;
    CompactNumbers(schema, rows, opts, hash);
    var offs := RecordOffsets(Records(rows, schema, opts).value, 32 + |ExtendedHeader(schema, opts.Wire())|);
    forall k | 0 <= k < |offs|
      ensures offs[k] < U64
    {
      CompactOffsets(schema, rows, opts, hash, k);
    }
  }

  lemma {:induction false} CompactNumbers(schema: Schema, rows: seq<seq<Write>>, opts: Options, hash: Hash)
    requires CompactFits(schema, rows, opts, hash)
    ensures |rows| < U32 && opts.blockSize < U32 && schema.Shaped() && Records(rows, schema, opts).Ok?
    ensures opts.delta ==> AnchorCount(|rows|, Block(opts.blockSize)) < U16
  {
    hide EncodeRecord, RowFileBytes, IndexOfFile, Join;
  }

  /** The file opens with the schema it was written with, and its index finds every record's object. */
  lemma {:induction false} CompactOpens(schema: Schema, rows: seq<seq<Write>>, opts: Options, hash: Hash, k: nat)
    requires CompactFits(schema, rows, opts, hash) && k < |rows|
    ensures Open(FileOf(schema, rows, opts, hash).value) == Ok(CompactReader(schema, rows, opts, hash))
    ensures RowOffset(CompactReader(schema, rows, opts, hash), k) ==
            Some(32 + |ExtendedHeader(schema, opts.Wire())| + |Join(Records(rows, schema, opts).value[..k])|)
  {
    hide Open, RowFileBytes, ExtendedHeader, Join, Records, ClassicIndex, DeltaIndex, OpenRow, ReadSchema,
         Representable, Carried, WireFlags.Compact, RowOffset, ParseDeltaTail, TailPtr, Indexable, AnchorCount,
         ReadLe;
    var header, records := ExtendedHeader(schema, opts.Wire()), Records(rows, schema, opts).value;
    var data, offs := PadTo(Join(records), 8), RecordOffsets(records, 32 + |header|);
    var embedded := Embedded(schema.keys, schema.sigils, Some(schema));
    CompactSchemaReads(schema, rows, opts, hash);
    CompactIndexable(schema, rows, opts, hash);
    CompactOffsets(schema, rows, opts, hash, k);
    if opts.delta {
      DeltaIndexIs(offs, 0, opts.blockSize);
      RowFileOpens(Version(opts), opts.Wire(), header, data, DeltaIndex(offs, opts.blockSize).value, hash);
      DeltaOpens(Version(opts), opts.Wire(), header, data, offs, opts.blockSize, hash, embedded, k);
    } else {
      IndexLen(offs);
      RowFileOpens(Version(opts), opts.Wire(), header, data, ClassicIndex(offs), hash);
      ClassicOpens(Version(opts), opts.Wire(), header, data, offs, hash, embedded, k);
    }
  }

  // ── Reading a compact file ────────────────────────────────────────────────

  /** A compact row reader's typed getter for a slot. */
  function GetCompact(r: Reader, rec: nat, slot: nat): Option<CompactCell>
    requires r.ext.Some? && r.ext.value.Shaped() && slot < r.ext.value.Count()
  {
    var obj :- RowOffset(r, rec);
    GetCell(r.data, obj, slot, r.ext.value, DenseWalk.RowPlanOf(r.ext.value, r.flags), r.flags.dense)
  }

  /**
   Where a record is laid out as its readers expect: a dense record's shared word is in step and the slot
   is not the unaligned string; a sparse record's slot is reached, and its table entry leads to its cell.
   */
  ghost predicate Resolvable(cells: CompactDense.Cells, schema: Schema, opts: Options, slot: nat)
  {
    CellsFit(cells, schema, opts) && slot < schema.Count() &&
    if opts.dense && AllTrue(PresentOf(cells, schema.Count())) then
      FittingRecordEncodes(cells, schema, opts);
      InStep(cells, schema, PlanOf(schema, opts)) && !DenseWalk.Unaligned(slot, schema, DenseWalk.RowPlanOf(schema, opts.Wire()))
    else
      FittingRecordEncodes(cells, schema, opts);
      SparseRecord.Reached(cells, schema, opts, slot) &&
      (CompactDense.Lookup(cells, slot).Some? ==> SparseRecord.Leads(cells, schema, opts, slot))
  }

  lemma {:induction false} RecordReads(cells: CompactDense.Cells, schema: Schema, opts: Options, data: Bytes,
      obj: nat, slot: nat)
    requires Resolvable(cells, schema, opts, slot)
    requires CompactRecord.Written(cells, schema, opts, data, obj)
    ensures GetCell(data, obj, slot, schema, DenseWalk.RowPlanOf(schema, opts.Wire()), opts.dense) == CompactDense.Lookup(cells, slot)
  {
    hide CompactRecord.Written, GetCell, CompactDense.Lookup, InStep, DenseWalk.Unaligned, SparseRecord.Leads,
         SparseRecord.Reached, Typed, CellsFit, PlanFor, DenseWalk.RowPlanOf, DenseCells, SparseRecord.SparseCells;
    FittingRecordEncodes(cells, schema, opts);
    if opts.dense && AllTrue(PresentOf(cells, schema.Count())) {
      DenseRoundTrip(cells, schema, opts, data, obj, slot);
    } else {
      SparseRecord.SparseRoundTrip(cells, schema, opts, data, obj, slot);
    }
  }

  /** Every slot of every record of a compact file reads back the cell that was buffered for it. */
  lemma {:induction false} CompactRoundTrip(schema: Schema, rows: seq<seq<Write>>, opts: Options, hash: Hash,
      rec: nat, slot: nat)
    requires CompactFits(schema, rows, opts, hash) && rec < |rows| && slot < schema.Count()
    requires Resolvable(ToCells(rows[rec]), schema, opts, slot)
    ensures Open(FileOf(schema, rows, opts, hash).value).Ok?
    ensures var r := Open(FileOf(schema, rows, opts, hash).value).value;
            && r.layout == RowLayout && r.keys == schema.keys && r.recordCount == |rows| && r.ext == Some(schema)
            && GetCompact(r, rec, slot) == CompactDense.Lookup(ToCells(rows[rec]), slot)
  {
    hide Open, FileOf, ExtendedHeader, Join, Records, GetCell, CompactDense.Lookup, CellsFit, Resolvable,
         Representable, Carried, At, EncodeRecord, DenseWalk.RowPlanOf, RowOffset, ToCells;
    CompactOpens(schema, rows, opts, hash, rec);
    CompactRecordAt(schema, rows, opts, hash, rec);
    CompactNumbers(schema, rows, opts, hash);
    RecordIs(rows, schema, opts, rec);
    var obj := 32 + |ExtendedHeader(schema, opts.Wire())| + |Join(Records(rows, schema, opts).value[..rec])|;
    RecordReads(ToCells(rows[rec]), schema, opts, FileOf(schema, rows, opts, hash).value, obj, slot);
  }
}
