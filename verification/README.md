# Proofs about the Nyxis file format

Nyxis (`.nxb`) stores tables of typed records in bytes. Several writers choose offsets; several readers
compute them again from the raw bytes. This project models the writers and readers of four parts of the
format and proves that they agree.

* **Compact row records (v1.3).** `bytes`, `align`, `bitmask`, `cell_run`, `compact_schema`, `wire_order`,
  `wire_length`, `dense_walk`, `compact_cells`, `compact_dense`, `compact_sparse`, `compact_record` and
  `sparse_record` model the encoder, with packed bools, narrow integers, promoted strings and reordered cells,
  and the three ways a reader finds a cell. `inference`, `compact_file` and `compact_refines` model the schema
  the writer infers and the whole file, up to the main result that a compact file reads as the v1.2 file does.
* **Columnar and PAX tables.** `columns`, `table_layout`, `file_reader`, `columnar_reads`, `pax_reads` and
  `layout_independence` model both layouts and their readers; `pax_stream` and `forward_readers` the streaming
  writer and the readers that follow a growing file; `query` and `query_agrees` predicates over all layouts.
* **v1.2 row files.** `schema_header`, `tail_index`, `preamble`, `row_object`, `row_file`, `row_writer` and
  `columnar_from_rows` model the header, both tail indexes, the back-patching writer as a class, and the slot
  resolver.
* **The span log.** `decoder`, `span`, `span_codec`, `wal_recovery`, `span_log`, `segment`, `trace_queries` and
  `log_life` model appending, crashing at any byte, recovering, sealing, loading and querying.

A file is a sequence of bytes, a string its bytes, a float its eight-byte pattern (binary64, section 3.4 of
IEEE 754-2019). Sixteen-, 32- and 64-bit fields wrap and are sign-extended explicitly. Loops and objects that
the program updates in place are methods and classes; each is proved equal to a function, and the lemmas are
about that function.

Some of what the code means to do does not hold for every input. There the model does what the code does, the
results say exactly when the code does what it means to, and `limits` gives such inputs:

* `align_to` rounds up for powers of two only, but the shared bool word may be of 3, 5, 6 or 7 bytes.
* A sparse record's shared bool word is found if and only if its padding equals the byte index of the first
  present bool.
* Packed bools without dense frames are read behind a record header that is not there.
* In a reordered record, the first promoted string behind fixed cells of odd length is looked for a byte early.
* Row offsets are cut to 16 bits, and so is the number of anchors of a delta index; record offsets are kept in
  32 bits.
* A log recovered after a torn record cannot be recovered past that record again.
* Appending accepts records over the 10 MB that recovery stops at.
* Sealing rewrites a number whose low 32 bits are the object or list magic.
* Paging 2^32 rows or more does not end.
* A columnar file without keys does not open, and a page stream without keys is refused where a batch is not.

`instances` shows that the conditions of the main results can be met.

## Model

| member | source | states |
|---|---|---|
| Align.AlignsAtPowers | rust/src/compact.rs:600-605 | for a power of two, the readers' alignment formula stops where the writers' padding loops stop |
| Align.AlignToAgreesIffPower | rust/src/compact.rs:600-605 | the formula rounds up at every position if and only if the alignment is a power of two |
| Align.AgreesExactly | rust/src/compact.rs:947-959 | for every size of the shared bool word, 3, 5, 6 and 7 bytes included, the positions at which the formula still finds the word, in closed form |
| Bitmask.BuildBitmask | rust/src/compact.rs:1460-1484 | the loop packs presence flags seven to a byte, at least one byte, all but the last marked as continuing |
| Bitmask.SetSlot | rust/src/writer.rs:411-431 | setting one bit in the bitmask bytes is setting exactly that slot's presence flag, and stays a well-formed mask |
| Bitmask.MaskEndOfMask | rust/src/query.rs:1422-1463 | a reader that follows continuation bits stops at the end of the written mask, whatever follows it |
| Bitmask.RankOfMask | rust/src/query.rs:1422-1463 | the set bits a reader counts in front of a slot are the present slots in front of it |
| Bitmask.RankIsIndex | rust/src/query.rs:1422-1463 | that count is the slot's index among the present slots, the index of its offset-table entry |
| Bitmask.ResolveSlotWalk | rust/src/query.rs:1422-1463 | the two-phase loop over the mask bytes computes the resolver that the lemmas are about, out-of-range bytes included |
| CompactSchema.FlagsRoundTrip | rust/src/compact.rs:68-86 | the preamble flag word gives back each option that wrote it |
| CompactCells.IntRoundTrip | rust/src/compact.rs:642-684 | an integer is encoded at a width if and only if it fits, and then decodes to itself |
| CompactCells.AppendCell | rust/src/compact.rs:1382-1458 | the encoder of one cell: its padding, its bytes, and each of its error cases |
| CompactCells.CellRoundTrip | rust/src/query.rs:766-885 | where a typed cell's bytes lie, the getter for its column returns the cell |
| CompactCells.AdvancePastCell | rust/src/compact.rs:908-945 | past a typed cell, the reader's position is the writer's |
| WireOrder.DenseWireOrder | rust/src/compact.rs:820-841 | the collect, sort and append of the wire order computes the order the lemmas are about |
| WireOrder.OrderIsPermutation | rust/src/compact.rs:820-841 | the wire order lists each slot that has a cell exactly once, the first packed bool for all of them, and fixed-width cells before variable ones |
| WireLength.DescendingHasNoPadding | rust/src/compact.rs:794-818 | descending power-of-two widths leave no padding: the fixed region is the sum of its cell widths |
| WireLength.WireOrderIsShortest | rust/src/compact.rs:820-841 | no order of the same fixed cells gives a shorter region than the wire order |
| DenseWalk.TableRefinesWalk | rust/src/compact.rs:867-1020 | for every schema, flag word, slot and data: the precomputed offset table answers as the walk over the cells does, but for one slot it misses by a byte, which is named exactly |
| CompactDense.EncodeDenseBody | rust/src/compact.rs:1298-1327 | the loop that writes a dense body, with its shared bool word and its error cases |
| CompactDense.EncodeDenseIsRun | rust/src/compact.rs:1298-1327 | for typed complete cells the body is one aligned run with each cell at its own start |
| CompactDense.WalkFindsCell | rust/src/compact.rs:987-1019 | the reader's walk stops at the writer's start of the cell, for a packed bool if and only if the shared word is in step |
| CompactRecord.DenseResolvesIff | rust/src/compact.rs:962-1020 | a packed bool of a dense record resolves to where it was written if and only if the shared word is in step; with no word out of step, any other slot does if and only if it is not the one unaligned string |
| CompactDense.WalkTracks | rust/src/compact.rs:987-1019 | in step or not, the walk ends at the place its own position leads to, until it meets a string out of step |
| CompactRecord.DenseResolvesTo | rust/src/compact.rs:962-1020 | so a slot behind a word that is out of step resolves to exactly that place, which may be another cell's |
| CompactRecord.DenseRoundTrip | rust/src/compact.rs:1190-1254 | every cell of a complete dense record reads back as written, with or without wire reordering |
| CompactSparse.EncodeSparseBody | rust/src/compact.rs:1329-1380 | the loop that writes a sparse body and records where each slot starts |
| CompactSparse.EncodeSparseIsRun | rust/src/compact.rs:1329-1380 | for typed cells the sparse encoder succeeds, its body is an aligned run, and every present slot's start is recorded |
| SparseRecord.SparseEncodes | rust/src/compact.rs:1190-1254 | a sparse record is header byte, mask, offset table, aligned data; encoding it never fails for typed cells |
| SparseRecord.SparseResolves | rust/src/compact.rs:1115-1175 | a reader follows the entry of the slot, shared by packed bools, modulo 2^16, and finds nothing for an absent slot |
| SparseRecord.SparseResolvesIff | rust/src/compact.rs:1348-1352 | a present slot resolves to where its cell was written if and only if its recorded place fits the table's two bytes and, for a packed bool, the word's padding equals the byte index of the first present bool; with record headers, or in front of a second packed bool without them |
| SparseRecord.SparseRoundTrip | rust/src/compact.rs:1115-1147 | under that condition a present cell of a sparse record reads back as written; an absent slot reads as absent |
| Limits.BoolsFoundIff | rust/src/compact.rs:773-779 | a one-byte integer in front of n packed bools: they are found if and only if their word is of 1, 2, 4 or 8 bytes; not with 17 bools |
| Limits.LoneBoolFoundIff | rust/src/compact.rs:1348-1352 | of n packed bools only the s-th is written: it is found if and only if s is below 8 |
| Limits.HeaderlessFoundIff | rust/src/compact.rs:1490-1524 | up to seven packed bools, all true, in records without dense frames: the getter takes the mask for a record header, and a bool reads back if and only if it is the fifth |
| Limits.PromotedFoundIff | rust/src/compact.rs:979-986 | a promoted string behind an integer of w bytes in a reordered record: it is found if and only if w is not 1 |
| TailIndex.BuildTailIndexRecords | rust/src/writer.rs:628-640 | the classic tail index: a count, a ten-byte entry a record, the footer |
| TailIndex.BuildDeltaTailIndex | rust/src/compact.rs:440-491 | the delta tail index, or its range error, in two loops over offsets and anchors |
| TailIndex.DeltaTailBuilds | rust/src/compact.rs:440-491 | building succeeds if and only if every offset is at or above its block's anchor by at most 2^32 - 1 |
| TailIndex.DeltaTailParses | rust/src/compact.rs:493-552 | parsing after any prefix finds the counts, and the deltas if and only if there are at most 65535 anchors |
| TailIndex.DeltaTailRoundTrip | rust/src/compact.rs:554-572 | every record's offset comes back, and an index past the last is out of bounds |
| TailIndex.DeltaRefinesClassic | rust/src/compact.rs:575-579 | the delta lookup and the classic ten-byte lookup of the same records agree |
| Limits.TooManyAnchors | rust/src/compact.rs:440-491 | with 65536 anchors the index is built, and its deltas are looked for in the wrong place |
| SchemaHeader.BuildSchema | rust/src/writer.rs:568-584 | the v1.2 header: count, sigils with a default, names, padding |
| SchemaHeader.ParseSchema | rust/src/query.rs:1378-1416 | the v1.2 header parser with its bounds errors |
| SchemaHeader.NamesRoundTrip | rust/src/query.rs:1378-1416 | written names parse back if and only if none holds a NUL |
| SchemaHeader.BasicRoundTrip | rust/src/query.rs:1378-1416 | a v1.2 header at an aligned position parses back, followed by anything, if and only if there are at most 65535 keys without a NUL |
| SchemaHeader.BuildExtendedSchema | rust/src/compact.rs:282-317 | the v1.3 header: widths and attributes when the flags ask for them, names, the value pool, padding |
| SchemaHeader.ParseExtendedSchema | rust/src/compact.rs:174-279 | the v1.3 header parser with its bounds errors |
| SchemaHeader.ExtendedRoundTrip | rust/src/compact.rs:174-317 | for every schema and flag word, the v1.3 header parses back to what the flags carry and to its own end if and only if the schema is representable |
| Columns.EncodeNullBitmap | rust/src/layout.rs:337-346 | the bit-setting loop gives the presence bitmap of a column |
| Columns.BitmapBit | rust/src/query.rs:57-59 | the reader's bit of a record is that record's presence |
| Columns.WriteFixedBuffer | rust/src/layout.rs:352-360 | the buffer holds eight bytes a record, zeros for absent or mistyped cells |
| Columns.EncodeVarColumn | rust/src/layout.rs:362-390 | bitmap, offsets and values of a variable column, or the error when the values pass 2^32 - 1 bytes |
| Columns.EncodeFieldColumn | rust/src/layout.rs:392-433 | the encoder of a column by its sigil |
| Columns.SectorLenIs | rust/src/layout.rs:188-217 | measuring a sector gives the length of the column written there, whatever follows it |
| Columns.FixedReads | rust/src/layout.rs:392-433 | a fixed column gives back each record's stored bytes, and nothing if absent |
| Columns.VarReads | rust/src/layout.rs:220-255 | a variable column gives back each record's presence and payload |
| TableLayout.FinishColumnar | rust/src/layout.rs:451-498 | the columnar file: sectors, tail entries, footer, back-filled preamble |
| TableLayout.EncodePage | rust/src/layout.rs:567-600 | a page: its header and its padded column sectors |
| TableLayout.FinishPax | rust/src/layout.rs:501-565 | the PAX file: rows cut into pages of a size, a tail entry a page, the footer |
| TableLayout.PagingEndsIff | rust/src/layout.rs:518-536 | that loop comes to an end if and only if there are fewer than 2^32 rows, since the rows left are cut to 32 bits before they are compared with the page size |
| FileReader.ReadColumnExtents | rust/src/query.rs:87-236 | the loop that reads the column entries of the tail, refusing a wrong index or an extent out of bounds |
| FileReader.PaxLocateRecord | rust/src/query.rs:491-508 | the binary search over the page entries |
| FileReader.PaxColumnSector | rust/src/query.rs:420-477 | the walk over the sectors of a page to a column's sector |
| ColumnarReads.ColumnarOpens | rust/src/query.rs:87-236 | a columnar file opens if and only if it has a column, and then with its table's keys, sigils and record count |
| ColumnarReads.ColumnarRoundTrip | rust/src/query.rs:612-647 | each getter of the columnar reader returns what the table holds at that record and column |
| PaxReads.LocateFinds | rust/src/query.rs:491-508 | the binary search ends at the page that holds the record and at its place in the page |
| PaxReads.PaxOpens | rust/src/query.rs:87-236 | a sealed PAX file opens with its record and page counts |
| PaxReads.PaxRoundTrip | rust/src/query.rs:510-609 | each getter of the PAX reader returns what the table holds, for any grouping of the rows into pages |
| LayoutIndependence.GroupsTile | rust/src/layout.rs:501-565 | paging keeps every row in order and fills every page but the last |
| LayoutIndependence.LayoutsAgree | rust/src/query.rs:595-647 | for every table, page size, record and key, the columnar and the PAX reader give the same answers, also to getters of another type |
| LayoutIndependence.TableRoundTrip | rust/src/query.rs:595-647 | in both layouts a cell of its column's type reads back as itself, and as nothing if and only if it is absent |
| PaxStream.PaxStreamWriter.constructor | rust/src/pax_stream.rs:94-118 | a new stream has no page and no waiting row |
| PaxStream.PaxStreamWriter.New | rust/src/pax_stream.rs:94-118 | a stream without a page size or without keys is refused with the error of the code |
| PaxStream.PaxStreamWriter.PushRecord | rust/src/pax_stream.rs:155-162 | pushing a row adds it to the waiting rows, and writes them as the next page when the page is full |
| PaxStream.PaxStreamWriter.FlushPending | rust/src/pax_stream.rs:165-196 | flushing writes the waiting rows, if any, as a page that starts at the record where the pages before it end |
| PaxStream.PaxStreamWriter.FinishStream | rust/src/pax_stream.rs:235-259 | finishing seals the written pages and the waiting rows |
| PaxStream.RunTiles | rust/src/pax_stream.rs:155-196 | after any pushes and flushes in any order, pages and waiting rows are exactly the rows pushed: none lost, repeated or moved |
| PaxStream.StreamRows | rust/src/pax_stream.rs:121-128 | pushing rows one by one and finishing gives the sealed PAX file, or the error of the page size, the keys or a column |
| PaxStream.StreamAgreesIff | rust/src/pax_stream.rs:121-128 | streaming gives, byte for byte or error for error, what the batch writer gives if and only if there is a key or the page size is zero |
| ForwardReaders.CompletePageEnd | rust/src/pax_stream.rs:37-67 | the page-end loop over the column sectors |
| ForwardReaders.PageEndGrows | rust/src/pax_stream.rs:37-67 | a page found in a prefix is found with the same end however the file grows |
| ForwardReaders.WrittenPageEnds | rust/src/pax_stream.rs:37-67 | a written page ends where its bytes end |
| ForwardReaders.PollsWholePages | rust/src/pax_stream.rs:481-486 | polling any truncation of a page stream yields exactly the pages kept whole, in order, never a partial one |
| ForwardReaders.PaxStreamReader.PollNextPage | rust/src/pax_stream.rs:481-486 | a poll takes the first of the pages still to come and leaves the others |
| ForwardReaders.PaxStreamReader.CompleteRecordCount | rust/src/pax_stream.rs:463-473 | the record count of the complete pages |
| ForwardReaders.ObjectEndGrows | rust/src/stream_reader.rs:20-38 | an object found in a prefix is found with the same end however the file grows |
| ForwardReaders.PollsWholeObjects | rust/src/stream_reader.rs:223-228 | polling any truncation of a row stream yields exactly the objects kept whole, in order |
| ForwardReaders.StreamReader.PollNextOffset | rust/src/stream_reader.rs:223-228 | a poll takes the first of the objects still to come and leaves the others |
| RowObject.ResolvesWritten | rust/src/query.rs:1422-1463 | resolving a slot of a written object gives the offset of its value modulo the table's two bytes, and nothing for an unwritten slot |
| RowObject.ResolvesIff | rust/src/writer.rs:411-431 | a written slot resolves to its value if and only if the value starts below 2^16 |
| RowObject.RowRoundTrip | rust/src/query.rs:766-885 | every slot of a written object reads back the cell written to it, or nothing |
| RowObject.OrderDoesNotMatter | rust/src/writer.rs:189-239 | objects of the same writes in any two orders give the same cell for every slot |
| Limits.BoolBehindStringIff | rust/src/writer.rs:411-431 | a bool behind a string of n bytes is found if and only if n is at most 65508 |
| RowFile.ClassicOpens | rust/src/query.rs:696-705 | with the classic index a reader counts the records and finds each one's offset |
| RowFile.DeltaOpens | rust/src/query.rs:696-705 | with the delta index and at most 65535 anchors a reader finds the same |
| RowFile.PlainRoundTrip | rust/src/query.rs:751-885 | every slot of every record of a v1.2 row file reads back the cell written to it |
| RowWriter.NxsWriter.constructor | rust/src/writer.rs:117-131 | a new writer has no row and no open object |
| RowWriter.NxsWriter.BeginObject | rust/src/writer.rs:135-185 | opening an object reserves its header, mask and table, all back-patched later |
| RowWriter.NxsWriter.MarkSlot | rust/src/writer.rs:411-431 | marking a slot sets its bit, appends its relative offset and notes whether slots stopped ascending |
| RowWriter.NxsWriter.WriteI64 | rust/src/writer.rs:435-448 | writing an integer appends one write to the open object and keeps the running minimum and maximum |
| RowWriter.NxsWriter.WriteF64 | rust/src/writer.rs:452-460 | writing a float appends one write |
| RowWriter.NxsWriter.WriteBool | rust/src/writer.rs:464-473 | writing a bool appends one write |
| RowWriter.NxsWriter.WriteTime | rust/src/writer.rs:477-485 | writing a time appends one write |
| RowWriter.NxsWriter.WriteStr | rust/src/writer.rs:499-519 | writing a string appends one write, padded, and buffers the value for its column |
| RowWriter.NxsWriter.WriteNull | rust/src/writer.rs:489-495 | writing a null appends one write in row mode, and panics exactly in compact mode |
| RowWriter.NxsWriter.WriteBytes | rust/src/writer.rs:523-533 | writing a blob appends one write in row mode, and panics exactly in compact mode |
| RowWriter.NxsWriter.PatchObject | rust/src/writer.rs:189-239 | back-patching length, mask and slot-ordered table, sorting first if slots did not ascend, gives the object of the writes, wherever in the buffer it starts |
| RowWriter.NxsWriter.EndObject | rust/src/writer.rs:189-239 | closing an object moves the open writes to the finished rows and keeps the writer's invariant |
| RowWriter.NxsWriter.Finish | rust/src/writer.rs:276-345 | sealing gives the v1.2 file of all rows, or the compact file of the inferred schema, with the record offsets as they were kept in 32 bits, whatever the order of the writes |
| RowFile.StoredOffsetsIff | rust/src/writer.rs:189-239 | the offsets kept are the records' offsets if and only if the last record starts below 2^32 |
| RowFile.StoredIsPlain | rust/src/writer.rs:276-345 | and then the sealed file is the v1.2 file that the readers are proved about |
| CompactFile.StoredIsFile | rust/src/writer.rs:276-345 | the same of compact files |
| RowWriter.EncodePending | rust/src/writer.rs:299-318 | the record loop of compact sealing: every record's bytes and its offset, or the first encode error |
| ColumnarFromRows.DecodeRowObject | rust/src/layout.rs:688-739 | the decoder of one row object: its mask, offset and field loops, with every bounds error |
| ColumnarFromRows.RowDecodes | rust/src/layout.rs:688-739 | a written object in reach decodes to the row of its cells, a null in a typed column as that type's zero or empty value |
| ColumnarFromRows.BufferDecodes | rust/src/layout.rs:669-686 | the buffer of finished objects decodes to exactly the rows written, whatever order their slots were written in |
| ColumnarFromRows.TypedComeBack | rust/src/layout.rs:688-739 | without nulls in typed columns, those are the rows as they were written |
| ColumnarFromRows.ColumnarFromWriter | rust/src/layout.rs:669-686 | for any writer: the columnar file of the rows its buffer decodes to, or the first decode error |
| ColumnarFromRows.ColumnarOfRows | rust/src/layout.rs:669-686 | for a writer with keys and objects in reach: the columnar file of exactly the rows it was given |
| Inference.InternValue | rust/src/compact.rs:349-356 | interning returns the index of the value, and grows the pool only for a new one |
| Inference.ScanKeywordPromotion | rust/src/compact.rs:362-402 | which columns are promoted, and the pool of their values |
| Inference.BuildSchema | rust/src/writer.rs:347-385 | the writer's schema inference: widths from minimum and maximum, promotion, short string lengths |
| Inference.PoolIsDuplicateFree | rust/src/compact.rs:362-402 | the value pool never repeats a value |
| Inference.InferredIsTyped | rust/src/writer.rs:347-385 | the inferred schema gives every column a type and width that the encoder accepts |
| Inference.InferredAdmits | rust/src/compact.rs:320-425 | every buffered cell fits the inferred schema: at its width, in the pool, or under its length prefix |
| CompactFile.FinishNeverFails | rust/src/writer.rs:299-345 | for columns of one type each, at most 64 bool columns if they are packed, and a pool of at most 65536 values, compact sealing meets no encode error, and no delta overflow below 2^32 bytes |
| CompactFile.CompactOpens | rust/src/query.rs:87-236 | a compact file within the widths of its header fields opens with the schema it was written with, and either index, the delta one with at most 65535 anchors, finds every record |
| CompactFile.CompactRoundTrip | rust/src/query.rs:751-885 | every resolvable slot of every record of a compact file reads back the cell buffered for it, where the record lemmas above say which slots are resolvable |
| CompactRefines.EightBoolsResolve | rust/src/compact.rs:773-779 | with at most eight bool columns, packed only if frames are dense, recorded places that fit the table, and no promoted string among reordered cells, every slot is resolvable |
| CompactRefines.CompactRefinesPlain | rust/src/lib.rs:219-284 | for rows of one type a column, any options with a wire flag, and both files within their header fields: every record and key of the compact file whose slot is resolvable reads as in the v1.2 file, which is the cell written |
| Instances.RefinementApplies | rust/src/lib.rs:219-284 | these conditions hold of one key, one row and one integer, with dense, packed and narrow records |
| Query.Records.Next | rust/src/query.rs:956-980 | the iterator returns the first match still to come and leaves the others |
| Query.SelectedIs | rust/src/query.rs:956-980 | the selection is exactly the records that satisfy the predicate, in ascending order |
| QueryAgrees.TestMeans | rust/src/query.rs:1021-1374 | a typed tree of predicates tests on bytes what it means on the table's row |
| QueryAgrees.QueriesAgree | rust/src/query.rs:722-728 | for rows of one type a column, and files within their header fields, a query lists the same records over the row, the columnar and the PAX file: those whose rows satisfy the tree |
| Instances.QueriesApply | rust/src/query.rs:722-728 | these conditions, and those of the layout results, hold of one key, one row and one integer, for every page size |
| Decoder.DecodeRecordAt | rust/src/decoder.rs:268-365 | the decoding loops over mask, offsets and fields, with their caps and errors |
| Decoder.DecodesWritten | rust/src/decoder.rs:277-365 | decoding any written object gives the fields of its writes, in slot order, if and only if the mask's last byte is reached below 512 bits and at most 512 slots are present, and is out of bounds otherwise |
| Decoder.IntDecodes | rust/src/decoder.rs:418-435 | an integer decodes to itself if its low 32 bits are neither magic, and otherwise is taken for an object or a list |
| Decoder.LooksUp | rust/src/segment_reader.rs:314-363 | a lookup by name comes down to the value of that key's slot |
| Span.ExtractTraceSpanId | rust/src/wal.rs:480-561 | the identity loop over a logged object |
| Span.IdentityReads | rust/src/wal.rs:480-561 | recovery reads the trace and span of every logged span back from its object |
| SpanCodec.SpanDecodes | rust/src/wal.rs:591-662 | a clean span with its values in reach decodes to itself, under the log's sigils or the sealed file's |
| SpanCodec.SurvivesIff | rust/src/wal.rs:591-662 | decoding a logged span with its values in reach and encoding it again gives the same bytes if and only if none of its numbers starts like an object or a list |
| Limits.MagicSpanIsLost | rust/src/decoder.rs:418-435 | a span whose start time has the object magic in its low bytes is not re-encoded to the same record |
| WalRecovery.ExtractDataSector | rust/src/wal.rs:395-439 | cutting the data sector out of a sealed file, or its bounds errors |
| WalRecovery.SectorOfPlain | rust/src/wal.rs:395-439 | the data sector of a v1.2 file is its objects, one after another |
| WalRecovery.CrashRecovery | rust/src/wal.rs:231-307 | after any appends and any truncation at or after the data start, recovery rebuilds exactly the entries of the records kept whole, up to the first one over the 10 MB guard; that is all of them if and only if none is over it |
| WalRecovery.SecondRecovery | rust/src/wal.rs:304-305 | after a crash, a recovery and more appends, a second recovery agrees with the index in memory if and only if the crash left no torn record and no record, old or new, is over the guard |
| Limits.TornTailHides | rust/src/wal.rs:304-305 | one torn byte, then an append: a second recovery loses the appended span |
| Limits.HugeIsOverGuard | rust/src/wal.rs:175-220 | a span that appending accepts, with a payload as long as the guard, is over it |
| Limits.OverGuardHidesAll | rust/src/wal.rs:231-307 | of a log that starts with a record over the guard, recovery finds nothing |
| SpanLog.SpanWal.Create | rust/src/wal.rs:118-172 | a new log is its header, with an empty index |
| SpanLog.SpanWal.Reopen | rust/src/wal.rs:118-172 | an existing log is opened as it is, to be recovered |
| SpanLog.SpanWal.Append | rust/src/wal.rs:175-220 | appending grows the file by the span's object and the index by its entry at the old end |
| SpanLog.SpanWal.Recover | rust/src/wal.rs:231-307 | recovery replaces the index by what the walk over the records finds, and leaves everything alone on a bad header |
| SpanLog.SpanWal.Seal | rust/src/wal.rs:312-373 | sealing decodes each indexed record, skips those that do not decode, and writes the rest as a row file, or fails as reading a record does |
| SpanLog.StoredIsSegment | rust/src/wal.rs:312-373 | what sealing writes is the v1.2 file of the spans when the last record starts below 2^32 |
| SpanLog.SealPreservesIff | rust/src/wal.rs:312-373 | sealing an untorn log of spans with values in reach keeps its objects one by one if and only if every span is clean |
| SpanLog.SealPreserves | rust/src/wal.rs:312-373 | the sealed data sector is byte for byte the log's records |
| LogLife.AppendAll | rust/src/wal.rs:175-220 | any number of appends keeps file, index and counters those of the spans so far |
| LogLife.CrashAndRecover | rust/src/wal.rs:231-307 | reopening and recovering any truncated log gives the index of the whole records up to one over the guard, and if nothing is torn or over it, exactly the log of those spans |
| Segment.Load | rust/src/segment_reader.rs:192-240 | loading fails exactly as decoding does, and otherwise its hash index agrees with a full scan of the tail entries for every trace |
| Segment.FindByTrace | rust/src/segment_reader.rs:104-129 | a query collects segments in order, then the live log, and sorts by start time |
| Segment.SortIsStable | rust/src/segment_reader.rs:104-129 | the sort orders by start time and keeps the order of spans that start together |
| TraceQueries.SealedDecodes | rust/src/decoder.rs:75-265 | the decoder opens the sealed file with its keys, sigils and tail |
| TraceQueries.SealedRecords | rust/src/wal.rs:312-373 | the tail index of the sealed file has one entry a record, in order, at the record's place |
| TraceQueries.TraceAnswers | rust/src/segment_reader.rs:104-129 | the records filed under a trace decode to exactly the spans of that trace |
| TraceQueries.SealedAnswers | rust/src/segment_reader.rs:192-240 | in the segment that sealing a log gives, a trace's records are exactly the appended spans of the trace, in order |
| TraceQueries.LiveAnswers | rust/src/segment_reader.rs:104-129 | the live log's records of a trace are the same spans |
| TraceQueries.SealingKeepsAnswers | rust/src/segment_reader.rs:104-129 | a query answers the same before and after sealing |
| TraceQueries.SegmentsAnswer | rust/src/segment_reader.rs:104-129 | the segments of any number of sealed logs hold together exactly the spans of the trace, log after log |
| TraceQueries.QueryAnswers | rust/src/segment_reader.rs:104-129 | those segments followed by a live log: exactly the spans of the trace among all that were appended |
| LogLife.AppendSealQuery | rust/src/segment_reader.rs:104-129 | append, query live, seal, load, query sealed: both answers are exactly the appended spans of the trace, in the stable order of their start times |
| LogLife.SealAndLoad | rust/src/wal.rs:312-373 | sealing a log of sound spans succeeds and its segment loads |
| LogLife.RotateAndQuery | rust/src/segment_reader.rs:104-129 | log after log is filled, sealed and loaded, and one more left live: a query returns exactly the spans of the trace among all that were appended, in the stable order of their start times |

## Left out

- UTF-8: text is carried as bytes, and the checks that refuse invalid text are not modelled.
- Schema hash: `murmur3_64` is a parameter of the theorems, any function of the schema bytes; nothing is said about collisions.
- Float comparison and the ratio of keyword promotion: the three comparisons are parameters, the ratio is a real number; rounding is not modelled.
- Files, buffers and paths: a file is a byte sequence in memory; `open` chooses between a new and an existing file, segments are given as a list in directory order; flushing, mapping and temporary files are not modelled.
- Prefetching, column warm-up, cache statistics, `col_sum_f64` and `col_reduce.rs`: performance only, or sums whose order of float additions differs.
- RowWriter.NxsWriter.BeginObject: one object is open at a time; a nested frame marks no slot of its parent.
- RowWriter.NxsWriter.WriteStr: like every write, to a slot not yet written in the open object; a second write to a slot would leave two offsets for one bit.
- RowWriter.NxsWriter.Finish: lengths are cut to their fields as a release build does; `usize` itself is not bounded.
- TableLayout.FinishPax: of fewer than 2^32 rows, exactly those for which its loop ends, by `TableLayout.PagingEndsIff`.
- PaxReads.LocateFinds: of at most 2^30 pages, where the search's 32-bit sums do not wrap.
- ColumnarReads.ColumnarRoundTrip: an explicit null cell is stored as a present zero or empty value, and reads back as that.
- CompactFile.CompactRoundTrip: of files with at least one wire flag set; without one, the header carries no attributes, so promoted and short strings are not read back.
- CompactRefines.CompactRefinesPlain: of typed cells without nulls, blobs and keywords, of at most 64 packed bools, and of the resolvable slots; of the others the record lemmas say where the reader looks.
- CompactRecord.DenseResolvesTo: up to the first string that the reader meets out of step, whose length it then takes from bytes of other cells.
- SparseRecord.SparseResolvesIff: without dense frames, of slots with at most one packed bool present in front of them; the bytes that the reader takes for a header, a mask or a word otherwise are those of other cells, and `Limits.HeaderlessFoundIff` gives one family of them.
- SpanCodec.SurvivesIff: of spans whose values start below 2^16, as the offset table can say; past that, decoding reads bytes of other values.
- WalRecovery.CrashRecovery: of spans whose objects are shorter than 2^32 bytes, as the record length can say.
- ColumnarFromRows.ColumnarOfRows: of objects in reach; `ColumnarFromWriter` has no such condition.
- QueryAgrees.QueriesAgree: the row layout is the v1.2 one; over compact files the predicates resolve slots as if they were v1.2, at rust/src/query.rs:1012-1019.
- CompactCells.IntRoundTrip: integer cells only; the writer never infers a float of four bytes.
- Decoder.DecodesWritten: plain row objects; nested objects beyond their magic, links that do not resolve, and macros are not modelled.
- Segment.Load: the header checks of `decode` are modelled for v1.2 row files only, the ones sealing writes.
- Segment.FindByTrace: spans found by identifier or by time window, at rust/src/segment_reader.rs:132-165, filter the same records and are not modelled.
- ForwardReaders.PaxStreamReader.PollNextPage: reading values from a polled page, at rust/src/pax_stream.rs:313-361, assumes columns of fixed width and is not modelled.
- ForwardReaders.StreamReader.PollNextOffset: the getters at a polled offset, at rust/src/stream_reader.rs:152-220, use the slot resolvers proved for sealed files and are not repeated.
- Lists, keyword columns outside promotion, dotted paths, the compiler front end, statistics, Arrow projection, and the command-line and network programs.
