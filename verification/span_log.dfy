/**
 The span log as an object: append, recover after a crash, and seal into a segment file. Sealing decodes
 every logged record and encodes it again; the sealed objects are the logged ones exactly when every span
 is clean.
 */
module SpanLog {
  import opened Bytes
  import opened CompactSchema
  import opened SchemaHeader
  import opened Preamble
  import opened TailIndex
  import opened RowObject
  import opened RowFile
  import opened RowWriter
  import opened Span
  import opened WalRecovery
  import opened SpanCodec
  import opened ForwardReaders
  import CompactFile
  import CompactRefines
  import CompactRecord
  import Columns

  // ── Writing one span ──────────────────────────────────────────────────────

  /** The next write of a span goes to a slot that is still free. */
  lemma {:induction false} NextWrite(f: SpanFields, open: seq<Write>, k: nat)
    requires k < |SpanWrites(f)| && open == SpanWrites(f)[..k]
    ensures Lookup(open, k).None? && open + [Write(k, SpanCell(f, k))] == SpanWrites(f)[..k + 1]
  {
    hide SpanCell;
    LookupNone(open, k);
  }

  /** The first four `write_*` calls of a span. */
  method WriteIdentity(w: NxsWriter, f: SpanFields)
    requires w.Valid() && w.frame.Some? && w.compact.None? && |w.keys| == 10 && w.open == []
    modifies w
    ensures w.Valid() && w.frame.Some? && w.rows == old(w.rows) && w.open == SpanWrites(f)[..4]
  {
    hide NxsWriter.Valid, Lookup, SpanWrites;
    assert SpanWrites(f)[..0] == [];
    NextWrite(f, w.open, 0); w.WriteI64(0, f.traceHi);
    NextWrite(f, w.open, 1); w.WriteI64(1, f.traceLo);
    NextWrite(f, w.open, 2); w.WriteI64(2, f.spanId);
    NextWrite(f, w.open, 3);
    match f.parent {
      case Some(p) => w.WriteI64(3, p);
      case None => var panics := w.WriteNull(3);
    }
  }

  /** The `write_*` calls after those. */
  method WriteDetails(w: NxsWriter, f: SpanFields)
    requires w.Valid() && w.frame.Some? && w.compact.None? && |w.keys| == 10 && w.open == SpanWrites(f)[..4]
    modifies w
    ensures w.Valid() && w.frame.Some? && w.rows == old(w.rows) && w.open == SpanWrites(f)
  {
    hide NxsWriter.Valid, Lookup, ValueBytes, SpanWrites;
    NextWrite(f, w.open, 4); w.WriteStr(4, f.name);
    NextWrite(f, w.open, 5); w.WriteStr(5, f.service);
    NextWrite(f, w.open, 6); w.WriteTime(6, f.start);
    NextWrite(f, w.open, 7); w.WriteI64(7, f.duration);
    NextWrite(f, w.open, 8); w.WriteI64(8, f.status);
    if f.payload.Some? {
      NextWrite(f, w.open, 9); var panics := w.WriteBytes(9, f.payload.value);
    }
    assert SpanWrites(f)[..|SpanWrites(f)|] == SpanWrites(f);
  }

  /** The object that `append` and `seal` write for a span. */
  method WriteSpan(w: NxsWriter, f: SpanFields)
    requires w.Valid() && w.frame.None? && w.compact.None? && |w.keys| == 10
    modifies w
    ensures w.Valid() && w.frame.None? && w.rows == old(w.rows) + [SpanWrites(f)]
  {
    hide NxsWriter.Valid, Object, SpanWrites, ObjectLen, ValueStart;
    w.BeginObject();
    WriteIdentity(w, f);
    WriteDetails(w, f);
    w.EndObject();
  }

  // ── Sealing, as functions of the file and the index ───────────────────────

  function SpanRows(spans: seq<SpanFields>): (rows: seq<seq<Write>>)
    ensures |rows| == |spans| && forall k :: 0 <= k < |rows| ==> rows[k] == SpanWrites(spans[k])
  {
    seq(|spans|, k requires 0 <= k < |spans| => SpanWrites(spans[k]))
  }

  /** One record of the log, read through its index entry. */
  function ReadRecord(file: Bytes, off: nat): Result<Bytes>
  {
    if off + 8 > |file| then Err(IoError)
    else
      var len := ReadLe(file[off + 4..off + 8]);
      if len < 8 then Err(Panic)
      else if off + len > |file| then Err(IoError)
      else Ok(file[off..off + len])
  }

  /** The spans that sealing decodes from the first `n` entries; a record that does not decode is skipped. */
  function SealedSpans(file: Bytes, index: seq<WalEntry>, n: nat): (r: Result<seq<SpanFields>>)
    requires n <= |index|
    ensures r.Ok? ==> |r.value| <= n
  {
    if n == 0 then Ok([])
    else
      var front :- SealedSpans(file, index, n - 1);
      var obj :- ReadRecord(file, index[n - 1].offset);
      match DecodeSpan(obj, 0, SpanSigils())
      case None => Ok(front)
      case Some(f) => Ok(front + [f])
  }

  /** What sealing decodes from the whole index. */
  function AllSealed(file: Bytes, index: seq<WalEntry>): Result<seq<SpanFields>> { SealedSpans(file, index, |index|) }

  /** The segment file of a list of spans. */
  function SegmentFile(spans: seq<SpanFields>, hash: Hash): Bytes
  {
    PlainFile(SpanKeys(), CompactRefines.SeenSigils(10, SpanRows(spans)), SpanRows(spans), hash)
  }

  /** What sealing writes for a list of spans of any size. */
  function StoredSegment(spans: seq<SpanFields>, hash: Hash): Bytes
  {
    StoredFile(SpanKeys(), CompactRefines.SeenSigils(10, SpanRows(spans)), SpanRows(spans), hash)
  }

  /** It is the segment file when the last record starts below 2^32. */
  lemma {:induction false} StoredIsSegment(spans: seq<SpanFields>, hash: Hash)
    requires StartsBelow(SpanObjects(spans))
    ensures StoredSegment(spans, hash) == SegmentFile(spans, hash)
  {
    hide StoredFile, PlainFile, CompactRefines.SeenSigils, StartsBelow;
    ObjectsOfRows(spans);
    TenKeys();
    StoredIsPlain(SpanKeys(), CompactRefines.SeenSigils(10, SpanRows(spans)), SpanRows(spans), hash);
  }

  lemma {:induction false} ObjectsOfRows(spans: seq<SpanFields>)
    ensures Objects(SpanRows(spans), 10) == SpanObjects(spans)
  {
    hide Object, SpanWrites;
  }

  lemma {:induction false} SealFails(file: Bytes, index: seq<WalEntry>, n: nat, m: nat)
    requires n <= m <= |index| && SealedSpans(file, index, n).Err?
    ensures SealedSpans(file, index, m) == SealedSpans(file, index, n)
    decreases m
  {
    hide ReadRecord, DecodeSpan;
    if n < m { SealFails(file, index, n, m - 1); }
  }

  // ── The log ───────────────────────────────────────────────────────────────

  lemma {:induction false} NewLog()
    ensures Log([]) == Le(MAGIC_WAL, 4) + Le(0x0100, 2) + Le(1, 2) + Le(|WalSchema()|, 4) + WalSchema()
    ensures DataStart() == 12 + |WalSchema()|
  {
    hide WalSchema, Le;
    assert Join(SpanObjects([])) == [];
  }

  datatype SealReport = SealReport(records: nat, segment: Bytes)

  class SpanWal {
    const hash: Hash
    var file: Bytes
    var index: seq<WalEntry>
    var recordCount: nat
    var currentOffset: nat

    /** Opening a new log writes its header. */
    constructor Create(hash: Hash)
      ensures this.hash == hash && file == Log([]) && index == [] && recordCount == 0 && currentOffset == DataStart() == |file|
    {
      hide *;
      NewLog();
      var schema := WalSchema();
      this.hash := hash;
      file := Le(MAGIC_WAL, 4) + Le(0x0100, 2) + Le(1, 2) + Le(|schema|, 4) + schema;
      index, recordCount, currentOffset := [], 0, 8 + 4 + |schema|;
    }

    /** Opening an existing log leaves everything to `Recover`. */
    constructor Reopen(file: Bytes, hash: Hash)
      ensures this.file == file && index == [] && recordCount == 0 && currentOffset == 0 && this.hash == hash
    {
      this.hash, this.file, index, recordCount, currentOffset := hash, file, [], 0, 0;
    }

    /** The log grows by the span's object, and the index by its entry. */
    method Append(f: SpanFields) returns (r: Result<nat>)
      requires |SegmentFile([f], hash)| < U64
      modifies this
      ensures r == Ok(old(currentOffset)) && file == old(file) + SpanObject(f)
      ensures index == old(index) + [IndexEntry(f, old(currentOffset))]
      ensures currentOffset == old(currentOffset) + |SpanObject(f)| && recordCount == old(recordCount) + 1
    {
      hide NxsWriter.Valid, SpanObject, PlainFile, StoredFile, DataSector, SpanWrites, CompactRefines.SeenSigils,
           SegmentFile, CompactFile.StoredCompact;
      var fileOffset := currentOffset;
      var w := new NxsWriter(SpanKeys(), None);
      WriteSpan(w, f);
      var nxb := w.Finish(hash);
      OneRecord(f, hash);
      assert w.rows == [SpanWrites(f)];
      var sector := ExtractDataSector(nxb.value);
      file := file + sector.value;
      currentOffset := currentOffset + |sector.value|;
      index := index + [WalEntry(TraceId(f.traceHi, f.traceLo), Wrap(f.spanId, 8), fileOffset)];
      recordCount := recordCount + 1;
      r := Ok(fileOffset);
    }

    /** Rebuild the index from the file; its end is where the next record goes. */
    method Recover() returns (error: Option<Error>)
      modifies this
      ensures file == old(file)
      ensures match RecoverFile(file)
              case Err(e) => error == Some(e) && index == old(index) && recordCount == old(recordCount) && currentOffset == old(currentOffset)
              case Ok(found) => error == None && index == found.index && recordCount == found.count && currentOffset == |file|
    {
      hide RecoverFrom, ReadLe;
      if |file| < 8 { return Some(IoError); }
      if ReadLe(file[0..4]) != MAGIC_WAL { return Some(BadMagic); }
      if |file| < 12 { return Some(IoError); }
      var found := WalkRecords(file, 12 + ReadLe(file[8..12]));
      index, recordCount, currentOffset := found.index, found.count, |file|;
      error := None;
    }

    /** Decode every indexed record and write the spans to a segment file. */
    method Seal() returns (r: Result<SealReport>)
      ensures r == match AllSealed(file, index)
                   case Err(e) => Err(e)
                   case Ok(spans) => Ok(SealReport(recordCount, StoredSegment(spans, hash)))
    {
      hide NxsWriter.Valid, Object, SpanWrites, DecodeSpan, ReadRecord, StoredFile, CompactRefines.SeenSigils,
           SealedSpans, Join, CompactFile.StoredCompact;
      var w := new NxsWriter(SpanKeys(), None);
      ghost var spans: seq<SpanFields> := [];
      NoSpans(file, index);
      for k := 0 to |index|
        invariant fresh(w) && w.Valid() && w.frame.None? && w.compact.None? && w.keys == SpanKeys()
        invariant SealedSpans(file, index, k) == Ok(spans)
        invariant w.rows == SpanRows(spans)
      {
        var obj := ReadRecord(file, index[k].offset);
        SealStep(file, index, k);
        if obj.Err? {
          SealFails(file, index, k + 1, |index|);
          return Err(obj.error);
        }
        var f := DecodeSpan(obj.value, 0, SpanSigils());
        if f.Some? {
          assert SealedSpans(file, index, k + 1) == Ok(spans + [f.value]);
          WriteSpan(w, f.value);
          spans := spans + [f.value];
        }
      }
      var nxb := w.Finish(hash);
      r := Ok(SealReport(recordCount, nxb.value));
    }
  }

  lemma {:induction false} NoSpans(file: Bytes, index: seq<WalEntry>)
    ensures SealedSpans(file, index, 0) == Ok([])
  {
  }

  lemma {:induction false} SealStep(file: Bytes, index: seq<WalEntry>, k: nat)
    requires k < |index| && SealedSpans(file, index, k).Ok?
    ensures SealedSpans(file, index, k + 1) ==
            match ReadRecord(file, index[k].offset)
            case Err(e) => Err(e)
            case Ok(obj) =>
              match DecodeSpan(obj, 0, SpanSigils())
              case None => SealedSpans(file, index, k)
              case Some(f) => Ok(SealedSpans(file, index, k).value + [f])
  {
    hide ReadRecord, DecodeSpan;
  }

  /** The record loop of `recover`. */
  method WalkRecords(file: Bytes, start: nat) returns (found: Recovered)
    ensures found == RecoverFrom(file, start)
  {
    hide ExtractIdentity, WholeRecord;
    var index: seq<WalEntry> := [];
    var count, pos := 0, start;
    Resumes(RecoverFrom(file, start), index, count);
    while true
      invariant start <= pos && RecoverFrom(file, start) == Resumed(index, count, RecoverFrom(file, pos))
      decreases |file| - pos
    {
      var len := WholeRecord(file, pos);
      if len.None? { break; }
      var id := ExtractTraceSpanId(file[pos..pos + len.value]);
      ResumeStep(index, EntryIn(file, pos, len.value), RecoverFrom(file, pos + len.value).index);
      if id.Some? {
        index := index + [WalEntry(id.value.trace, id.value.span, pos)];
      } else {
        assert index + [] == index;
      }
      count := count + 1;
      pos := pos + len.value;
    }
    Resumes(RecoverFrom(file, start), index, count);
    found := Recovered(index, count);
  }

  ghost function Resumed(index: seq<WalEntry>, count: nat, rest: Recovered): Recovered
  {
    Recovered(index + rest.index, count + rest.count)
  }

  lemma {:induction false} Resumes(all: Recovered, index: seq<WalEntry>, count: nat)
    ensures Resumed([], 0, all) == all && Resumed(index, count, Recovered([], 0)) == Recovered(index, count)
  {
    assert [] + all.index == all.index && index + [] == index;
  }

  lemma {:induction false} ResumeStep(index: seq<WalEntry>, entry: seq<WalEntry>, rest: seq<WalEntry>)
    ensures index + (entry + rest) == (index + entry) + rest
  {
  }

  /** The data sector of the file that `append` writes for one span is the span's object. */
  lemma {:induction false} OneRecord(f: SpanFields, hash: Hash)
    requires |SegmentFile([f], hash)| < U64
    ensures DataSector(StoredFile(SpanKeys(), CompactRefines.SeenSigils(10, [SpanWrites(f)]), [SpanWrites(f)], hash)) == Ok(SpanObject(f))
  {
    hide DataSector, BasicHeader, Object, PlainFile, StoredFile, SpanWrites, CompactRefines.SeenSigils;
    var sigils, rows := CompactRefines.SeenSigils(10, [SpanWrites(f)]), [SpanWrites(f)];
    assert SpanRows([f]) == rows && |SpanKeys()| == 10;
    JoinOne(Objects(rows, 10));
    StoredIsPlain(SpanKeys(), sigils, rows, hash);
    KeysNulFree();
    SectorOfPlain(SpanKeys(), sigils, rows, hash);
  }

  /** A record short enough for its length field makes a file that a 64-bit length holds. */
  lemma {:induction false} OneRecordFits(f: SpanFields, hash: Hash)
    requires Storable(f)
    ensures |SegmentFile([f], hash)| < U64
  {
    hide BasicHeader, Object, RowFileBytes, SpanWrites, ClassicEntries, Names, CompactRefines.SeenSigils;
    var rows := SpanRows([f]);
    var sigils, objects := CompactRefines.SeenSigils(10, rows), Objects(rows, 10);
    var header := BasicHeader(SpanKeys(), sigils);
    assert |SpanKeys()| == 10 && objects == [SpanObject(f)];
    JoinOne(objects);
    HeaderShort(sigils);
    FileParts(VERSION, PlainFlags(), header, Join(objects), ClassicIndex(RecordOffsets(objects, 32 + |header|)), hash);
    OneIndex(RecordOffsets(objects, 32 + |header|));
  }

  lemma {:induction false} OneIndex(offs: seq<nat>)
    ensures |ClassicIndex(offs)| == 4 + 10 * |offs|
  {
  }

  lemma {:induction false} JoinOne(parts: seq<Bytes>)
    requires |parts| == 1
    ensures Join(parts) == parts[0] && StartsBelow(parts)
  {
    assert parts[..0] == [];
  }

  lemma {:induction false} HeaderShort(sigils: Bytes)
    requires |sigils| == 10
    ensures |BasicHeader(SpanKeys(), sigils)| < 256
  {
    KeysShort();
    hide SpanKeys;
    NamesLen(SpanKeys(), 14);
  }

  // ── Sealing preserves the log ─────────────────────────────────────────────

  function Norms(spans: seq<SpanFields>): (n: seq<SpanFields>)
    ensures |n| == |spans| && forall k :: 0 <= k < |n| ==> n[k] == Norm(spans[k])
  {
    seq(|spans|, k requires 0 <= k < |spans| => Norm(spans[k]))
  }

  /** An untorn log's index. */
  function FullIndex(spans: seq<SpanFields>): (index: seq<WalEntry>)
    ensures |index| == |spans|
  {
    Entries(spans, DataStart(), 0, |spans|)
  }

  lemma {:induction false} RecordReads(spans: seq<SpanFields>, k: nat)
    requires k < |spans| && Storable(spans[k])
    ensures ReadRecord(Log(spans), FullIndex(spans)[k].offset) == Ok(SpanObject(spans[k]))
  {
    hide WalHeader, Join, SpanObject, IdentityOf;
    var file, objects := Log(spans), SpanObjects(spans);
    assert At(file, DataStart(), Join(objects));
    JoinAt(file, DataStart(), objects, k);
    SpanIsObject(spans[k]);
    ObjectWhole(file, DataStart() + |Join(objects[..k])|, objects[k]);
  }

  /** Sealing decodes each of the first `n` objects to its span, if it decodes all of them. */
  ghost predicate SealsAs(spans: seq<SpanFields>, n: nat, r: Result<seq<SpanFields>>)
    requires n <= |spans|
  {
    && r.Ok?
    && (|r.value| == n ==> forall k :: 0 <= k < n ==> DecodeSpan(SpanObject(spans[k]), 0, SpanSigils()) == Some(r.value[k]))
    && ((forall k :: 0 <= k < n ==> DecodeSpan(SpanObject(spans[k]), 0, SpanSigils()).Some?) ==> |r.value| == n)
  }

  /** What sealing makes of the first `n` records of an untorn log. */
  lemma {:induction false} SealsPrefix(spans: seq<SpanFields>, n: nat)
    requires n <= |spans| && forall k :: 0 <= k < n ==> Storable(spans[k])
    ensures SealsAs(spans, n, SealedSpans(Log(spans), FullIndex(spans), n))
  {
    hide Log, FullIndex, ReadRecord, DecodeSpan, SpanObject, Storable, SpanSigils;
    if n > 0 {
      SealsPrefix(spans, n - 1);
      RecordReads(spans, n - 1);
      SealStep(Log(spans), FullIndex(spans), n - 1);
    }
  }

  /**
   Sealing an untorn log keeps its objects, one by one, exactly when every span is clean; the sealed spans
   are then the logged ones, with a parent of zero read as none.
   */
  lemma {:induction false} SealPreservesIff(spans: seq<SpanFields>)
    requires forall k :: 0 <= k < |spans| ==> Storable(spans[k]) && SpanFits(spans[k])
    ensures AllSealed(Log(spans), FullIndex(spans)).Ok?
    ensures SpanObjects(AllSealed(Log(spans), FullIndex(spans)).value) == SpanObjects(spans)
            <==> forall k :: 0 <= k < |spans| ==> CleanSpan(spans[k])
    ensures (forall k :: 0 <= k < |spans| ==> CleanSpan(spans[k])) ==>
              AllSealed(Log(spans), FullIndex(spans)).value == Norms(spans)
  {
    hide Log, FullIndex, DecodeSpan, SpanObject, Storable, SpanFits, CleanSpan, SealedSpans, Norm, SpanSigils;
    var n := |spans|;
    SealsPrefix(spans, n);
    var sealed := SealedSpans(Log(spans), FullIndex(spans), n).value;
    forall k | 0 <= k < n
      ensures CleanSpan(spans[k]) ==> DecodeSpan(SpanObject(spans[k]), 0, SpanSigils()) == Some(Norm(spans[k])) && SpanObject(Norm(spans[k])) == SpanObject(spans[k])
      ensures |sealed| == n && SpanObject(sealed[k]) == SpanObject(spans[k]) ==> CleanSpan(spans[k])
    {
      SurvivesIff(spans[k]);
      NormSameObject(spans[k]);
    }
    if SpanObjects(sealed) == SpanObjects(spans) {
      assert |SpanObjects(sealed)| == |SpanObjects(spans)|;
      assert forall k :: 0 <= k < n ==> SpanObjects(sealed)[k] == SpanObjects(spans)[k];
    }
  }

  /** Spans that the log, the sealed file and the decoder can all hold. */
  ghost predicate Sound(spans: seq<SpanFields>)
  {
    forall k :: 0 <= k < |spans| ==> Storable(spans[k]) && SpanFits(spans[k]) && CleanSpan(spans[k])
  }

  /**
   Sealing preserves the log: the sealed spans are the logged ones in normal form, and the data sector of the
   segment is, byte for byte, the log's records.
   */
  lemma {:induction false} SealPreserves(spans: seq<SpanFields>, hash: Hash)
    requires Sound(spans) && |SegmentFile(Norms(spans), hash)| < U64
    ensures AllSealed(Log(spans), FullIndex(spans)) == Ok(Norms(spans))
    ensures DataSector(SegmentFile(Norms(spans), hash)) == Ok(Join(SpanObjects(spans)))
    ensures Objects(SpanRows(Norms(spans)), 10) == SpanObjects(spans)
  {
    hide FullIndex, SpanObject, Storable, SpanFits, CleanSpan, SealedSpans, Norm, SpanSigils, PlainFile, DataSector,
         WalHeader, SpanWrites;
    SealPreservesIff(spans);
    ObjectsOfRows(Norms(spans));
    KeysNulFree();
    SectorOfPlain(SpanKeys(), CompactRefines.SeenSigils(10, SpanRows(Norms(spans))), SpanRows(Norms(spans)), hash);
  }
}
