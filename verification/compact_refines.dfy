/** A compact file of typed rows refines the v1.2 file of the same rows: every key of every record reads the same. */
module CompactRefines {
  import opened Bytes
  import opened CompactSchema
  import opened SchemaHeader
  import opened Preamble
  import opened FileReader
  import opened RowFile
  import opened WireLength
  import opened CompactCells
  import opened CompactRecord
  import opened Inference
  import opened RowObject
  import opened CompactFile
  import CellRun
  import CompactDense
  import CompactSparse
  import SparseRecord
  import DenseWalk

  /** The sigils the row writer has seen, one a key. */
  function SeenSigils(n: nat, rows: seq<seq<Write>>): (s: Bytes)
    ensures |s| == n
  {
    SigilsSeen(n, Flat(rows))
  }

  /** A cell of a v1.2 reader, as the compact reader's getters give it. */
  function AsCompact(c: Option<Columns.Cell>): Option<CompactCell>
  {
    if c.None? then None else Some(ToCompact(c.value))
  }

  lemma {:induction false} CellsAreTyped(keys: seq<Bytes>, rows: seq<seq<Write>>, types: Bytes, rec: nat, slot: nat)
    requires |types| == |keys| && TypedWrites(Flat(rows), types) && rec < |rows| && slot < |keys|
    ensures Lookup(rows[rec], slot).Some? ==>
              ValueTyped(Lookup(rows[rec], slot).value, KnownSigils(|keys|, SeenSigils(|keys|, rows))[slot])
  {
    hide Flat, SeenSigil;
    if Lookup(rows[rec], slot).Some? {
      var j := InFlat(rows, rec, IndexOf(rows[rec], slot));
      SeenSigilIs(Flat(rows), types, slot);
    }
  }

  /** The two files of the same rows, each within what its fields can describe. */
  ghost predicate BothFit(keys: seq<Bytes>, rows: seq<seq<Write>>, types: Bytes, opts: Options, hash: Hash)
  {
    && Inferable(keys, rows, types, opts)
    && PlainFits(keys, SeenSigils(|keys|, rows), rows, hash)
    && CompactFits(SchemaOf(keys, Flat(rows), opts), rows, opts, hash)
  }

  /**
   For any typed rows and any compact options, every record and key of the compact file reads the cell that
   the v1.2 file gives, which is the cell that was written; the two readers find the same slots.
   */
  lemma {:induction false} CompactRefinesPlain(keys: seq<Bytes>, rows: seq<seq<Write>>, types: Bytes, opts: Options,
      hash: Hash, rec: nat, key: Bytes)
    requires BothFit(keys, rows, types, opts, hash) && rec < |rows|
    requires key in keys ==> Resolvable(ToCells(rows[rec]), SchemaOf(keys, Flat(rows), opts), opts, LastIndex(keys, key).value)
    ensures CompactFileBytes(keys, rows, opts, hash).Ok?
    ensures Open(PlainFile(keys, SeenSigils(|keys|, rows), rows, hash)).Ok?
    ensures Open(CompactFileBytes(keys, rows, opts, hash).value).Ok?
    ensures var plain := Open(PlainFile(keys, SeenSigils(|keys|, rows), rows, hash)).value;
            var compact := Open(CompactFileBytes(keys, rows, opts, hash).value).value;
            && plain.recordCount == compact.recordCount == |rows| && plain.keys == compact.keys == keys && |plain.sigils| == |keys|
            && compact.ext.Some? && compact.ext.value.Shaped() && compact.ext.value.Count() == |keys|
            && plain.Slot(key) == compact.Slot(key)
            && (plain.Slot(key).Some? ==>
                  var slot := plain.Slot(key).value;
                  GetCompact(compact, rec, slot) == AsCompact(GetPlain(plain, rec, slot)) == AsCompact(Lookup(rows[rec], slot)))
  {
    hide Open, PlainFile, FileOf, SchemaOf, Flat, SeenSigils, GetPlain, GetCompact, Lookup, CompactDense.Lookup,
         CellsFit, Resolvable, Inferable, PlainFits, CompactFits, LastIndex, ToCells, KnownSigils;
    FilesOpen(keys, rows, types, opts, hash, rec);
    if key in keys {
      var slot := LastIndex(keys, key).value;
      OneSlot(keys, rows, types, opts, hash, rec, slot);
    }
  }

  lemma {:induction false} FilesOpen(keys: seq<Bytes>, rows: seq<seq<Write>>, types: Bytes, opts: Options,
      hash: Hash, rec: nat)
    requires BothFit(keys, rows, types, opts, hash) && rec < |rows|
    ensures CompactFileBytes(keys, rows, opts, hash).Ok?
    ensures Open(PlainFile(keys, SeenSigils(|keys|, rows), rows, hash)).Ok?
    ensures Open(CompactFileBytes(keys, rows, opts, hash).value).Ok?
    ensures var plain := Open(PlainFile(keys, SeenSigils(|keys|, rows), rows, hash)).value;
            var compact := Open(CompactFileBytes(keys, rows, opts, hash).value).value;
            && plain.recordCount == compact.recordCount == |rows| && plain.keys == compact.keys == keys
            && |plain.sigils| == |keys| && compact.ext == Some(SchemaOf(keys, Flat(rows), opts))
  {
    hide Open, PlainFile, SchemaOf, Flat, SeenSigils, Inferable, PlainFits, ExtendedHeader, BasicHeader, Records,
         Join, RowFileBytes, TailPtr, IndexOfFile, KnownSigils, Objects, RowOffset;
    PlainOpens(keys, SeenSigils(|keys|, rows), rows, hash, rec);
    CompactOpens(SchemaOf(keys, Flat(rows), opts), rows, opts, hash, rec);
  }

  lemma {:induction false} OneSlot(keys: seq<Bytes>, rows: seq<seq<Write>>, types: Bytes, opts: Options, hash: Hash,
      rec: nat, slot: nat)
    requires BothFit(keys, rows, types, opts, hash) && rec < |rows| && slot < |keys|
    requires Resolvable(ToCells(rows[rec]), SchemaOf(keys, Flat(rows), opts), opts, slot)
    ensures CompactFileBytes(keys, rows, opts, hash).Ok?
    ensures Open(PlainFile(keys, SeenSigils(|keys|, rows), rows, hash)).Ok?
    ensures Open(CompactFileBytes(keys, rows, opts, hash).value).Ok?
    ensures var plain := Open(PlainFile(keys, SeenSigils(|keys|, rows), rows, hash)).value;
            var compact := Open(CompactFileBytes(keys, rows, opts, hash).value).value;
            && |plain.sigils| == |keys| && compact.ext == Some(SchemaOf(keys, Flat(rows), opts))
            && GetPlain(plain, rec, slot) == Lookup(rows[rec], slot)
            && GetCompact(compact, rec, slot) == AsCompact(Lookup(rows[rec], slot))
  {
    hide Open, PlainFile, FileOf, SchemaOf, Flat, SeenSigils, GetPlain, GetCompact, Lookup, CompactDense.Lookup,
         CellsFit, Resolvable, PlainFits, CompactFits, ToCells, KnownSigils, TypedWrites, FewBools;
    FilesOpen(keys, rows, types, opts, hash, rec);
    CellsAreTyped(keys, rows, types, rec, slot);
    PlainRoundTrip(keys, SeenSigils(|keys|, rows), rows, hash, rec, slot);
    CompactRoundTrip(SchemaOf(keys, Flat(rows), opts), rows, opts, hash, rec, slot);
    LookupCells(rows[rec], slot);
  }

  // ── When every slot is resolvable ─────────────────────────────────────────

  lemma {:induction false} SmallWord(schema: Schema, opts: Options)
    requires |BoolSlots(schema)| <= 8
    ensures WordOk(PlanOf(schema, opts)) && PlanOf(schema, opts).BoolWordBytes() <= 1
  {
  }

  /**
   With at most eight bool columns, packed only if frames are dense, no promoted string among reordered
   cells, and a recorded place that fits the table, a slot is resolvable.
   */
  lemma {:induction false} EightBoolsResolve(cells: CompactDense.Cells, schema: Schema, opts: Options, slot: nat)
    requires CellsFit(cells, schema, opts) && slot < schema.Count() && |BoolSlots(schema)| <= 8 && SparseRecord.Readable(opts)
    requires opts.dense && opts.reorder ==> !schema.IsPromoted(slot)
    requires SparseRecord.SparseCells(cells, schema, opts) && CompactDense.Lookup(cells, slot).Some? ==>
               SparseRecord.InTable(cells, schema, opts, slot)
    ensures Resolvable(cells, schema, opts, slot)
  {
    hide Typed, CellFits, BoolSlots, CompactDense.Lookup, DenseWalk.Unaligned, DenseWalk.RowPlanOf, InStep,
         SparseRecord.InTable, SparseRecord.WordPadding, SparseRecord.EntrySlot, AllTrue;
    FittingRecordEncodes(cells, schema, opts);
    SmallWord(schema, opts);
    if opts.dense && AllTrue(PresentOf(cells, schema.Count())) {
      WordOkIsInStep(cells, schema, PlanOf(schema, opts));
      NotUnaligned(schema, opts, slot);
    } else if CompactDense.Lookup(cells, slot).Some? && PlanOf(schema, opts).InWord(slot) {
      NoPadding(cells, schema, opts, slot);
    }
  }

  lemma {:induction false} NotUnaligned(schema: Schema, opts: Options, slot: nat)
    requires schema.Shaped() && (opts.dense && opts.reorder ==> !schema.IsPromoted(slot))
    ensures !DenseWalk.Unaligned(slot, schema, DenseWalk.RowPlanOf(schema, opts.Wire()))
  {
    if DenseWalk.Unaligned(slot, schema, DenseWalk.RowPlanOf(schema, opts.Wire())) {
      UnalignedIsPromoted(slot, schema, opts.Wire());
    }
  }

  lemma {:induction false} NoPadding(cells: CompactDense.Cells, schema: Schema, opts: Options, slot: nat)
    requires SparseRecord.SparseCells(cells, schema, opts) && slot < schema.Count() && |BoolSlots(schema)| <= 8
    requires CompactDense.Lookup(cells, slot).Some? && PlanOf(schema, opts).InWord(slot)
    ensures var s := SparseRecord.EntrySlot(cells, schema, opts, slot);
            SparseRecord.WordPadding(cells, schema, opts, s) == 0 == Position(PlanOf(schema, opts).boolSlots, s) / 8
  {
    hide Typed, CompactSparse.Fits, CompactDense.Lookup, CellRun.Body, BoolSlots;
    var s := SparseRecord.EntrySlot(cells, schema, opts, slot);
    assert PresentOf(cells, schema.Count())[s];
    assert SparseRecord.RunOf(cells, schema, opts)[s].align == 1;
    PadOneNat(|CellRun.Body(SparseRecord.RunOf(cells, schema, opts)[..s])|);
  }
}
