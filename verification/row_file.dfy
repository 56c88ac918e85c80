/** Sealed row files: preamble, schema header, record objects and a tail index; and how a reader finds a record. */
module RowFile {
  import opened Bytes
  import opened CompactSchema
  import opened SchemaHeader
  import opened Preamble
  import opened Columns
  import opened TailIndex
  import opened FileReader
  import RowObject

  // ── The file ──────────────────────────────────────────────────────────────

  /** `finish`: the preamble carries no tail pointer, the footer does. */
  function RowFileBytes(version: nat, flags: WireFlags, header: Bytes, data: Bytes, index: Bytes, hash: Hash): Bytes
  {
    PreambleBytes(version, flags, hash(header), 0) + header + data + (index + Footer(TailPtr(header, data)))
  }

  function TailPtr(header: Bytes, data: Bytes): nat { 32 + |header| + |data| }

  /** The absolute offset of every record. */
  function RecordOffsets(objects: seq<Bytes>, base: nat): (offs: seq<nat>)
    ensures |offs| == |objects| && forall k :: 0 <= k < |objects| ==> offs[k] == base + |Join(objects[..k])|
  {
    seq(|objects|, k requires 0 <= k <= |objects| => base + |Join(objects[..k])|)
  }

  function ClassicIndex(offs: seq<nat>): Bytes { Le(|offs|, 4) + ClassicEntries(offs, 0) }

  lemma {:induction false} FileParts(version: nat, flags: WireFlags, header: Bytes, data: Bytes, index: Bytes,
      hash: Hash)
    ensures var file, tail := RowFileBytes(version, flags, header, data, index, hash), TailPtr(header, data);
            && |file| == tail + |index| + 12
            && At(file, 0, PreambleBytes(version, flags, hash(header), 0)) && At(file, 32, header)
            && At(file, 32 + |header|, data) && At(file, tail, index + Footer(tail)) && At(file, tail + |index|, Footer(tail))
  {
    hide PreambleBytes, Footer;
    var file, tail := RowFileBytes(version, flags, header, data, index, hash), TailPtr(header, data);
    var a, d := PreambleBytes(version, flags, hash(header), 0), index + Footer(tail);
    assert At(file, 0, a + header + data + d);
    AtConcat(file, 0, a + header + data, d);
    AtConcat(file, 0, a + header, data);
    AtConcat(file, 0, a, header);
    AtConcat(file, tail, index, Footer(tail));
  }

  lemma {:induction false} FooterReads(data: Bytes, off: nat, tailPtr: nat)
    requires At(data, off, Footer(tailPtr)) && tailPtr < U64
    ensures off + 12 <= |data| && ReadLe(data[off..off + 8]) == tailPtr && ReadLe(data[off + 8..off + 12]) == MAGIC_FOOTER
  {
    hide Le;
    Pow256Values();
    AtConcat(data, off, Le(tailPtr, 8), Le(MAGIC_FOOTER, 4));
    AtLe(data, off, tailPtr, 8);
    AtLe(data, off + 8, MAGIC_FOOTER, 4);
  }

  // ── Opening ───────────────────────────────────────────────────────────────

  predicate RowFlags(flags: WireFlags) { flags.embedded && !flags.columnar && !flags.pax }

  lemma {:induction false} RowFileOpens(version: nat, flags: WireFlags, header: Bytes, data: Bytes, index: Bytes,
      hash: Hash)
    requires RowFlags(flags) && |index| >= 4 && |RowFileBytes(version, flags, header, data, index, hash)| < U64
    ensures var file := RowFileBytes(version, flags, header, data, index, hash);
            && |file| >= 48
            && Open(file) == match ReadSchema(file, flags) { case Err(e) => Err(e) case Ok(schema) => OpenRow(file, flags, schema) }
            && ReadLe(file[16..24]) == 0 && ReadLe(file[|file| - 12..|file| - 4]) == TailPtr(header, data)
            && TailPtr(header, data) <= |file| - 4
  {
    hide PreambleBytes, Footer, ReadSchema, OpenRow, FlagsOf, WireFlags.Value, At;
    var file, tail := RowFileBytes(version, flags, header, data, index, hash), TailPtr(header, data);
    FileParts(version, flags, header, data, index, hash);
    PreambleReads(file, version, flags, hash(header), 0);
    FooterReads(file, tail + |index|, tail);
    assert file[|file| - 4..] == file[tail + |index| + 8..tail + |index| + 12];
    assert file[|file| - 12..|file| - 4] == file[tail + |index|..tail + |index| + 8];
  }

  /** `row_record_offset` */
  function RowOffset(r: Reader, index: nat): Option<nat>
  {
    if r.delta.Some? then DeltaOffset(r.data, r.delta.value, index).ToOption()
    else ReadU(r.data, r.tailStart + index * 10 + 2, 8)
  }

  lemma {:induction false} ClassicIndexReads(data: Bytes, tail: nat, offs: seq<nat>, k: nat)
    requires At(data, tail, ClassicIndex(offs)) && |offs| < U32 && k <= |offs| && (k < |offs| ==> offs[k] < U64)
    ensures tail + 4 <= |data| && ReadLe(data[tail..tail + 4]) == |offs|
    ensures k < |offs| ==> ReadU(data, tail + 4 + k * 10 + 2, 8) == Some(offs[k])
  {
    hide ClassicEntries, Le;
    AtConcat(data, tail, Le(|offs|, 4), ClassicEntries(offs, 0));
    Pow256Values();
    AtLe(data, tail, |offs|, 4);
    if k < |offs| { ClassicReads(data, tail + 4, offs, 0, k); }
  }

  /** With the classic index, a reader counts the records and finds each one's offset. */
  lemma {:induction false} ClassicOpens(version: nat, flags: WireFlags, header: Bytes, data: Bytes, offs: seq<nat>,
      hash: Hash, schema: Embedded, k: nat)
    requires RowFlags(flags) && !flags.delta && |offs| < U32 && k <= |offs| && (k < |offs| ==> offs[k] < U64)
    requires |RowFileBytes(version, flags, header, data, ClassicIndex(offs), hash)| < U64
    ensures var file := RowFileBytes(version, flags, header, data, ClassicIndex(offs), hash);
            var r := Reader(file, flags, schema.keys, schema.sigils, schema.ext, |offs|, TailPtr(header, data) + 4, None, RowLayout, []);
            |file| >= 48 && OpenRow(file, flags, schema) == Ok(r) && (k < |offs| ==> RowOffset(r, k) == Some(offs[k]))
  {
    IndexLen(offs);
    hide RowFileBytes, ClassicIndex, Footer, At, TailPtr, Open, ReadSchema, PreambleBytes, OpenRow, ReadLe, ReadU,
         RowFlags;
    var file, tail := RowFileBytes(version, flags, header, data, ClassicIndex(offs), hash), TailPtr(header, data);
    RowFileOpens(version, flags, header, data, ClassicIndex(offs), hash);
    FileParts(version, flags, header, data, ClassicIndex(offs), hash);
    AtConcat(file, tail, ClassicIndex(offs), Footer(tail));
    ClassicIndexReads(file, tail, offs, k);
    OpensClassic(file, flags, schema, tail, |offs|);
  }

  lemma {:induction false} OpensClassic(file: Bytes, flags: WireFlags, schema: Embedded, tail: nat, n: nat)
    requires |file| >= 48 && !flags.delta && ReadLe(file[16..24]) == 0
    requires ReadLe(file[|file| - 12..|file| - 4]) == tail <= |file| - 4 && ReadLe(file[tail..tail + 4]) == n
    ensures OpenRow(file, flags, schema) ==
            Ok(Reader(file, flags, schema.keys, schema.sigils, schema.ext, n, tail + 4, None, RowLayout, []))
  {
    hide ReadLe;
  }

  /** The delta index, without the footer that every row file ends with. */
  function DeltaIndex(offs: seq<nat>, blockSize: nat): Result<Bytes>
  {
    var anchors := Anchors(offs, Block(blockSize));
    var deltas :- Deltas(offs, anchors, Block(blockSize), 0);
    Ok(DeltaHeader(|offs|, blockSize, |anchors|) + Fields(anchors, 8) + Fields(deltas, 4))
  }

  lemma {:induction false} DeltaIndexIs(offs: seq<nat>, tailPtr: nat, blockSize: nat)
    ensures DeltaTail(offs, tailPtr, blockSize) ==
            match DeltaIndex(offs, blockSize) { case Err(e) => Err(e) case Ok(index) => Ok(index + Footer(tailPtr)) }
    ensures DeltaIndex(offs, blockSize).Ok? ==> |DeltaIndex(offs, blockSize).value| >= 4
  {
    hide Anchors, Deltas, DeltaHeader, Fields, Footer;
  }

  /** With the delta index, and at most 65535 anchors, a reader finds the same. */
  lemma {:induction false} DeltaOpens(version: nat, flags: WireFlags, header: Bytes, data: Bytes, offs: seq<nat>,
      blockSize: nat, hash: Hash, schema: Embedded, k: nat)
    requires RowFlags(flags) && flags.delta && k <= |offs|
    requires Indexable(offs, blockSize) && AnchorCount(|offs|, Block(blockSize)) < U16 && DeltaIndex(offs, blockSize).Ok?
    requires |RowFileBytes(version, flags, header, data, DeltaIndex(offs, blockSize).value, hash)| < U64
    ensures var file := RowFileBytes(version, flags, header, data, DeltaIndex(offs, blockSize).value, hash);
            && |file| >= 48 && ParseDeltaTail(file, TailPtr(header, data)).Ok?
            && var delta := ParseDeltaTail(file, TailPtr(header, data)).value;
               var r := Reader(file, flags, schema.keys, schema.sigils, schema.ext, |offs|, TailPtr(header, data), Some(delta), RowLayout, []);
               OpenRow(file, flags, schema) == Ok(r) && (k < |offs| ==> RowOffset(r, k) == Some(offs[k]))
  {
    hide RowFileBytes, DeltaIndex, DeltaTail, ParseDeltaTail, DeltaOffset, Indexable;
    var index, tail := DeltaIndex(offs, blockSize).value, TailPtr(header, data);
    var file := RowFileBytes(version, flags, header, data, index, hash);
    DeltaIndexIs(offs, tail, blockSize);
    RowFileOpens(version, flags, header, data, index, hash);
    FileParts(version, flags, header, data, index, hash);
    DeltaTailParses(file, tail, offs, blockSize, tail);
    if k < |offs| { DeltaTailRoundTrip(file, tail, offs, blockSize, tail, k); }
  }

  // ── A v1.2 file ───────────────────────────────────────────────────────────

  function PlainFlags(): WireFlags { WireFlags(false, true, false, false, false, false, false, false) }

  /** Each record's object. */
  function Objects(rows: seq<seq<RowObject.Write>>, n: nat): (o: seq<Bytes>)
    ensures |o| == |rows| && forall k :: 0 <= k < |rows| ==> o[k] == RowObject.Object(rows[k], n)
  {
    seq(|rows|, k requires 0 <= k < |rows| => RowObject.Object(rows[k], n))
  }

  /** `finish` in row mode. */
  function PlainFile(keys: seq<Bytes>, sigils: Bytes, rows: seq<seq<RowObject.Write>>, hash: Hash): Bytes
  {
    var header := BasicHeader(keys, sigils);
    var objects := Objects(rows, |keys|);
    RowFileBytes(VERSION, PlainFlags(), header, Join(objects), ClassicIndex(RecordOffsets(objects, 32 + |header|)), hash)
  }

  /** The offsets as the writer kept them while it wrote: positions in the data, cut to 32 bits. */
  function StoredOffsets(objects: seq<Bytes>, base: nat): (offs: seq<nat>)
    ensures |offs| == |objects| && forall k :: 0 <= k < |objects| ==> offs[k] == base + |Join(objects[..k])| % U32
  {
    seq(|objects|, k requires 0 <= k <= |objects| => base + |Join(objects[..k])| % U32)
  }

  /** The last object starts below 2^32 in the data. */
  predicate StartsBelow(objects: seq<Bytes>) { |objects| == 0 || |Join(objects[..|objects| - 1])| < U32 }

  /** What `finish` writes in row mode, of data of any size. */
  function StoredFile(keys: seq<Bytes>, sigils: Bytes, rows: seq<seq<RowObject.Write>>, hash: Hash): Bytes
  {
    var header := BasicHeader(keys, sigils);
    var objects := Objects(rows, |keys|);
    RowFileBytes(VERSION, PlainFlags(), header, Join(objects), ClassicIndex(StoredOffsets(objects, 32 + |header|)), hash)
  }

  /** The offsets kept are those of the records exactly when the last record starts below 2^32. */
  lemma {:induction false} StoredOffsetsIff(objects: seq<Bytes>, base: nat)
    ensures StoredOffsets(objects, base) == RecordOffsets(objects, base) <==> StartsBelow(objects)
  {
    hide Join;
    if StartsBelow(objects) {
      forall k | 0 <= k < |objects|
        ensures StoredOffsets(objects, base)[k] == RecordOffsets(objects, base)[k]
      {
        JoinMono(objects, k, |objects| - 1);
        ModUnique(|Join(objects[..k])|, U32, 0, |Join(objects[..k])|);
      }
    } else {
      var last := |objects| - 1;
      assert StoredOffsets(objects, base)[last] != RecordOffsets(objects, base)[last];
    }
  }

  lemma {:induction false} StoredIsPlain(keys: seq<Bytes>, sigils: Bytes, rows: seq<seq<RowObject.Write>>, hash: Hash)
    requires StartsBelow(Objects(rows, |keys|))
    ensures StoredFile(keys, sigils, rows, hash) == PlainFile(keys, sigils, rows, hash)
  {
    hide RowFileBytes, BasicHeader, ClassicIndex, Join, StartsBelow, StoredOffsets, RecordOffsets;
    StoredOffsetsIff(Objects(rows, |keys|), 32 + |BasicHeader(keys, sigils)|);
  }

  /** A file of rows that its fields can describe. */
  ghost predicate PlainFits(keys: seq<Bytes>, sigils: Bytes, rows: seq<seq<RowObject.Write>>, hash: Hash)
  {
    && |keys| < U16 && NulFree(keys) && |sigils| == |keys| && |rows| < U32
    && (forall k :: 0 <= k < |rows| ==> RowObject.Writable(rows[k], |keys|) && RowObject.InReach(rows[k], |keys|))
    && |PlainFile(keys, sigils, rows, hash)| < U64
  }

  /** The reader that opening the file gives. */
  function PlainReader(keys: seq<Bytes>, sigils: Bytes, rows: seq<seq<RowObject.Write>>, hash: Hash): Reader
  {
    var header, data := BasicHeader(keys, sigils), Join(Objects(rows, |keys|));
    Reader(PlainFile(keys, sigils, rows, hash), PlainFlags(), keys, KnownSigils(|keys|, sigils), None, |rows|,
           TailPtr(header, data) + 4, None, RowLayout, [])
  }

  /** A file whose schema reads back opens, and its classic index leads to every record. */
  lemma {:induction false} OpensWith(version: nat, flags: WireFlags, header: Bytes, data: Bytes, offs: seq<nat>,
      hash: Hash, schema: Embedded, k: nat)
    requires RowFlags(flags) && !flags.delta && |offs| < U32 && k <= |offs| && (k < |offs| ==> offs[k] < U64)
    requires |RowFileBytes(version, flags, header, data, ClassicIndex(offs), hash)| < U64
    requires ReadSchema(RowFileBytes(version, flags, header, data, ClassicIndex(offs), hash), flags) == Ok(schema)
    ensures var file := RowFileBytes(version, flags, header, data, ClassicIndex(offs), hash);
            var r := Reader(file, flags, schema.keys, schema.sigils, schema.ext, |offs|, TailPtr(header, data) + 4, None, RowLayout, []);
            Open(file) == Ok(r) && (k < |offs| ==> RowOffset(r, k) == Some(offs[k]))
  {
    hide RowFileBytes, ClassicIndex, Open, ReadSchema, OpenRow, TailPtr, RowOffset, ReadLe;
    IndexLen(offs);
    RowFileOpens(version, flags, header, data, ClassicIndex(offs), hash);
    ClassicOpens(version, flags, header, data, offs, hash, schema, k);
  }

  lemma {:induction false} PlainSchema(keys: seq<Bytes>, sigils: Bytes, rows: seq<seq<RowObject.Write>>, hash: Hash)
    requires PlainFits(keys, sigils, rows, hash)
    ensures ReadSchema(PlainFile(keys, sigils, rows, hash), PlainFlags()) == Ok(Embedded(keys, KnownSigils(|keys|, sigils), None))
    ensures |rows| < U32 && |PlainFile(keys, sigils, rows, hash)| < U64
  {
    hide RowFileBytes, BasicHeader, NulFree, Join, ClassicIndex, RowObject.Writable, RowObject.InReach, At, Objects,
         KnownSigils, ReadSchema;
    var header, objects := BasicHeader(keys, sigils), Objects(rows, |keys|);
    FileParts(VERSION, PlainFlags(), header, Join(objects), ClassicIndex(RecordOffsets(objects, 32 + |header|)), hash);
    HeaderReads(PlainFile(keys, sigils, rows, hash), keys, sigils);
  }

  lemma {:induction false} PlainFileIs(keys: seq<Bytes>, sigils: Bytes, rows: seq<seq<RowObject.Write>>, hash: Hash)
    ensures var header, objects := BasicHeader(keys, sigils), Objects(rows, |keys|);
            && PlainFile(keys, sigils, rows, hash) ==
                 RowFileBytes(VERSION, PlainFlags(), header, Join(objects), ClassicIndex(RecordOffsets(objects, 32 + |header|)), hash)
            && PlainReader(keys, sigils, rows, hash) ==
                 Reader(PlainFile(keys, sigils, rows, hash), PlainFlags(), keys, KnownSigils(|keys|, sigils), None, |rows|,
                   TailPtr(header, Join(objects)) + 4, None, RowLayout, [])
    ensures RowFlags(PlainFlags()) && !PlainFlags().delta
  {
    hide RowFileBytes, BasicHeader, Join, ClassicIndex, RecordOffsets, Objects, TailPtr, KnownSigils;
  }

  lemma {:induction false} PlainOpens(keys: seq<Bytes>, sigils: Bytes, rows: seq<seq<RowObject.Write>>, hash: Hash,
      k: nat)
    requires PlainFits(keys, sigils, rows, hash) && k <= |rows|
    ensures Open(PlainFile(keys, sigils, rows, hash)) == Ok(PlainReader(keys, sigils, rows, hash))
    ensures var objects, base := Objects(rows, |keys|), 32 + |BasicHeader(keys, sigils)|;
            k < |rows| ==> RowOffset(PlainReader(keys, sigils, rows, hash), k) == Some(base + |Join(objects[..k])|)
  {
    hide *;
    var header, objects := BasicHeader(keys, sigils), Objects(rows, |keys|);
    var offs := RecordOffsets(objects, 32 + |header|);
    PlainFileIs(keys, sigils, rows, hash);
    PlainSchema(keys, sigils, rows, hash);
    if k < |rows| { PlainObject(keys, sigils, rows, hash, k); }
    OpensWith(VERSION, PlainFlags(), header, Join(objects), offs, hash, Embedded(keys, KnownSigils(|keys|, sigils), None), k);
  }

  lemma {:induction false} HeaderReads(file: Bytes, keys: seq<Bytes>, sigils: Bytes)
    requires At(file, 32, BasicHeader(keys, sigils)) && |keys| < U16 && NulFree(keys)
    ensures ReadSchema(file, PlainFlags()) == Ok(Embedded(keys, KnownSigils(|keys|, sigils), None))
  {
    hide BasicHeader, NulFree, ParseBasic, KnownSigils, At;
    BasicRoundTrip(file, 32, keys, sigils);
  }

  lemma {:induction false} IndexLen(offs: seq<nat>)
    ensures |ClassicIndex(offs)| >= 4
  {
  }

  lemma {:induction false} PlainObject(keys: seq<Bytes>, sigils: Bytes, rows: seq<seq<RowObject.Write>>, hash: Hash,
      k: nat)
    requires k < |rows| && |PlainFile(keys, sigils, rows, hash)| < U64
    ensures var objects, base := Objects(rows, |keys|), 32 + |BasicHeader(keys, sigils)|;
            && base + |Join(objects[..k])| < U64
            && At(PlainFile(keys, sigils, rows, hash), base + |Join(objects[..k])|, RowObject.Object(rows[k], |keys|))
  {
    hide *;
    var header, objects := BasicHeader(keys, sigils), Objects(rows, |keys|);
    var base, file := 32 + |header|, PlainFile(keys, sigils, rows, hash);
    PlainFileIs(keys, sigils, rows, hash);
    FileParts(VERSION, PlainFlags(), header, Join(objects), ClassicIndex(RecordOffsets(objects, base)), hash);
    JoinAt(file, base, objects, k);
    AtInside(file, base + |Join(objects[..k])|, objects[k]);
  }

  /** A v1.2 row reader's typed getter for a slot. */
  function GetPlain(r: Reader, rec: nat, slot: nat): Option<Cell>
    requires slot < |r.sigils|
  {
    var obj :- RowOffset(r, rec);
    RowObject.RowCell(r.data, obj, slot, r.sigils[slot])
  }

  /** Every slot of every record of a v1.2 row file reads back the cell written to it. */
  lemma {:induction false} PlainRoundTrip(keys: seq<Bytes>, sigils: Bytes, rows: seq<seq<RowObject.Write>>,
      hash: Hash, rec: nat, slot: nat)
    requires PlainFits(keys, sigils, rows, hash) && rec < |rows| && slot < |keys|
    requires RowObject.Lookup(rows[rec], slot).Some? ==>
               RowObject.ValueTyped(RowObject.Lookup(rows[rec], slot).value, KnownSigils(|keys|, sigils)[slot])
    ensures Open(PlainFile(keys, sigils, rows, hash)).Ok?
    ensures var r := Open(PlainFile(keys, sigils, rows, hash)).value;
            && r.layout == RowLayout && r.keys == keys && |r.sigils| == |keys| && r.recordCount == |rows|
            && GetPlain(r, rec, slot) == RowObject.Lookup(rows[rec], slot)
  {
    hide Open, PlainFile, BasicHeader, NulFree, Join, Objects, RowObject.Object, RowObject.Writable,
         RowObject.InReach, RowObject.RowCell, At, RowOffset, RowObject.ValueTyped, RowObject.Lookup, KnownSigils;
    PlainOpens(keys, sigils, rows, hash, rec);
    PlainObject(keys, sigils, rows, hash, rec);
    var base := 32 + |BasicHeader(keys, sigils)|;
    RowObject.RowRoundTrip(PlainFile(keys, sigils, rows, hash), base + |Join(Objects(rows, |keys|)[..rec])|, rows[rec], |keys|, slot,
                           KnownSigils(|keys|, sigils)[slot]);
  }
}
