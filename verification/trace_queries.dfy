/**
 From appends to answers: a query over the sealed segment of a log, or over the live log itself, returns
 exactly the appended spans of a trace, in the stable order of their start times.
 */
module TraceQueries {
  import opened Bytes
  import opened CompactSchema
  import opened SchemaHeader
  import opened Preamble
  import opened TailIndex
  import opened FileReader
  import opened RowFile
  import opened RowObject
  import opened Decoder
  import opened Span
  import opened SpanCodec
  import opened WalRecovery
  import opened SpanLog
  import opened Segment
  import opened ForwardReaders
  import Inference
  import CompactFile
  import CompactRefines
  import CompactRecord
  import TableLayout
  import Columns

  /** The views of the spans of a trace among the first `n`, in the order they were appended. */
  function TraceViews(spans: seq<SpanFields>, trace: nat, n: nat): seq<SpanView>
    requires n <= |spans|
  {
    if n == 0 then []
    else TraceViews(spans, trace, n - 1)
         + (if TraceId(spans[n - 1].traceHi, spans[n - 1].traceLo) == trace then [ViewOf(spans[n - 1])] else [])
  }

  /** All the views of a trace. */
  function TraceSpans(spans: seq<SpanFields>, trace: nat): seq<SpanView> { TraceViews(spans, trace, |spans|) }

  // ── The parts of a sealed file ────────────────────────────────────────────

  /** The sigils that sealing settled on, as the schema header says them. */
  function SealedSigils(spans: seq<SpanFields>): Bytes { KnownSigils(10, CompactRefines.SeenSigils(10,
      SpanRows(spans))) }

  function SealedHeader(spans: seq<SpanFields>): Bytes { BasicHeader(SpanKeys(), CompactRefines.SeenSigils(10,
      SpanRows(spans))) }

  /** Where the tail entries start. */
  function SealedTail(spans: seq<SpanFields>): nat { TailPtr(SealedHeader(spans), Join(SpanObjects(spans))) + 4 }

  /** Where the records start. */
  function SealedOffsets(spans: seq<SpanFields>): (offs: seq<nat>)
    ensures |offs| == |spans|
  {
    RecordOffsets(SpanObjects(spans), 32 + |SealedHeader(spans)|)
  }

  function FileOf(header: Bytes, objects: seq<Bytes>, hash: Hash): Bytes
  {
    RowFileBytes(VERSION, PlainFlags(), header, Join(objects), ClassicIndex(RecordOffsets(objects, 32 + |header|)), hash)
  }

  lemma {:induction false} SegmentIs(spans: seq<SpanFields>, hash: Hash)
    ensures SegmentFile(spans, hash) == FileOf(SealedHeader(spans), SpanObjects(spans), hash)
  {
    hide RowFileBytes, BasicHeader, ClassicIndex, Join, SpanKeys, CompactRefines.SeenSigils, SpanRows;
    KeyCount();
    ObjectsOfRows(spans);
  }

  // ── The sealed header's sigils ────────────────────────────────────────────

  /** A slot only written with one type, or with nulls, settles on that type once it is written. */
  lemma {:induction false} SettlesOn(h: seq<Write>, slot: nat, sigil: Byte)
    requires sigil != 0 && sigil != SIGIL_NULL
    requires forall k :: 0 <= k < |h| && h[k].slot == slot ==> TableLayout.SigilOf(h[k].cell) in {sigil, SIGIL_NULL}
    ensures Inference.SeenSigil(h, slot) in {0, sigil, SIGIL_NULL}
    ensures forall k :: 0 <= k < |h| && h[k].slot == slot ==> Inference.SeenSigil(h, slot) != 0
    ensures forall k :: 0 <= k < |h| && h[k].slot == slot && TableLayout.SigilOf(h[k].cell) == sigil ==> Inference.SeenSigil(h, slot) == sigil
  {
    hide TableLayout.SigilOf;
    if |h| > 0 { SettlesOn(h[..|h| - 1], slot, sigil); }
  }

  lemma {:induction false} FlatWrites(spans: seq<SpanFields>, j: nat)
    requires j < |CompactFile.Flat(SpanRows(spans))|
    ensures exists k, s :: 0 <= k < |spans| && 0 <= s < |SpanWrites(spans[k])| && CompactFile.Flat(SpanRows(spans))[j] == SpanWrites(spans[k])[s]
    decreases |spans|
  {
    hide SpanWrites;
    var last := |spans| - 1;
    assert SpanRows(spans)[..last] == SpanRows(spans[..last]);
    var front := CompactFile.Flat(SpanRows(spans[..last]));
    if j < |front| {
      FlatWrites(spans[..last], j);
      var k, s :| 0 <= k < |spans[..last]| && 0 <= s < |SpanWrites(spans[..last][k])| && front[j] == SpanWrites(spans[..last][k])[s];
      assert spans[..last][k] == spans[k];
    } else {
      assert SpanRows(spans)[last] == SpanWrites(spans[last]);
      assert CompactFile.Flat(SpanRows(spans))[j] == SpanWrites(spans[last])[j - |front|];
    }
  }

  /** The sigil of a slot's own type. */
  lemma {:induction false} CellSigil(f: SpanFields, s: nat)
    requires s < |SpanWrites(f)|
    ensures TableLayout.SigilOf(SpanWrites(f)[s].cell) == SpanSigils()[s] || (s == 3 && TableLayout.SigilOf(SpanWrites(f)[s].cell) == SIGIL_NULL)
    ensures s == 3 && f.parent.Some? ==> TableLayout.SigilOf(SpanWrites(f)[s].cell) == SIGIL_INT
    ensures SpanSigils()[s] != 0 && SpanSigils()[s] != SIGIL_NULL
  {
  }

  /** The sealed file's sigil of a slot that span `k` wrote. */
  lemma {:induction false} SealedSigil(spans: seq<SpanFields>, k: nat, s: nat)
    requires k < |spans| && s < |SpanWrites(spans[k])|
    ensures var sigil := KnownSigils(10, CompactRefines.SeenSigils(10, SpanRows(spans)))[s];
            sigil == SpanSigils()[s] || (s == 3 && sigil == SIGIL_NULL && spans[k].parent.None?)
  {
    hide SpanWrites, SpanSigils, TableLayout.SigilOf, CompactFile.Flat;
    var h := CompactFile.Flat(SpanRows(spans));
    CellSigil(spans[k], s);
    forall j | 0 <= j < |h| && h[j].slot == s
      ensures TableLayout.SigilOf(h[j].cell) in {SpanSigils()[s], SIGIL_NULL}
    {
      FlatWrites(spans, j);
      var i, t :| 0 <= i < |spans| && 0 <= t < |SpanWrites(spans[i])| && h[j] == SpanWrites(spans[i])[t];
      CellSigil(spans[i], t);
    }
    SettlesOn(h, s, SpanSigils()[s]);
    var j := CompactFile.InFlat(SpanRows(spans), k, s);
  }

  lemma {:induction false} SealedSigilsFit(spans: seq<SpanFields>, k: nat)
    requires k < |spans|
    ensures SigilsFit(spans[k], SealedSigils(spans))
  {
    hide CompactRefines.SeenSigils, SpanRows;
    var sigils := KnownSigils(10, CompactRefines.SeenSigils(10, SpanRows(spans)));
    SealedSigil(spans, k, 0); SealedSigil(spans, k, 1); SealedSigil(spans, k, 2); SealedSigil(spans, k, 3); SealedSigil(spans, k, 4);
    SealedSigil(spans, k, 5); SealedSigil(spans, k, 6); SealedSigil(spans, k, 7); SealedSigil(spans, k, 8);
    if spans[k].payload.Some? { SealedSigil(spans, k, 9); }
    var want := SpanSigils();
    assert sigils[..3] == want[..3] && sigils[4..9] == want[4..9];
  }

  // ── Opening the sealed file ───────────────────────────────────────────────

  ghost predicate AllShort(names: seq<Bytes>)
  {
    forall k :: 0 <= k < |names| ==> |names[k]| <= 257
  }

  lemma {:induction false} ShortNamesAre(data: Bytes, p: nat, n: nat)
    requires ParseNames(data, p, n).Ok? && AllShort(ParseNames(data, p, n).value.names)
    ensures ShortNames(data, p, n) == ParseNames(data, p, n)
    decreases n
  {
    if n > 0 {
      var names, rest := ParseNames(data, p, n).value.names, ParseNames(data, NulAt(data, p) + 1, n - 1).value.names;
      assert |names[0]| <= 257;
      forall k | 0 <= k < |rest|
        ensures |rest[k]| <= 257
      {
        assert names[k + 1] == rest[k];
      }
      ShortNamesAre(data, NulAt(data, p) + 1, n - 1);
    }
  }

  lemma {:induction false} KeyNamesShort()
    ensures AllShort(SpanKeys())
  {
    KeysShort();
    hide SpanKeys;
  }

  /** The decoder parses the sealed file's header, and its hash check passes. */
  lemma {:induction false} HeaderDecodes(data: Bytes, sigils: Bytes, hash: Hash)
    requires |sigils| == 10 && At(data, 32, BasicHeader(SpanKeys(), sigils))
    requires |data| >= 34 && ReadLe(data[8..16]) == hash(BasicHeader(SpanKeys(), sigils))
    ensures DecodeHeader(data, hash) == Ok(Header(SpanKeys(), KnownSigils(10, sigils), 32 + |BasicHeader(SpanKeys(), sigils)|))
  {
    hide Names, KnownSigils, SpanKeys, ShortNames, ParseNames, At, NulFree;
    KeysNulFree();
    KeyNamesShort();
    var known := KnownSigils(10, sigils);
    var head := SchemaHeader.Head(SpanKeys(), known);
    var header := BasicHeader(SpanKeys(), sigils);
    AtConcat(data, 32, head, Zeros(RoundUp(|head|, 8) - |head|));
    AtConcat(data, 32, Le(10, 2) + known, Names(SpanKeys()));
    AtConcat(data, 32, Le(10, 2), known);
    Pow256Values();
    AtLe(data, 32, 10, 2);
    NamesRoundTrip(data, 44, SpanKeys());
    ShortNamesAre(data, 44, 10);
    RoundUpShift(32, |head|);
    WholeSlice(data, 34, known);
    WholeSlice(data, 32, header);
  }

  /** The decoder opens the sealed file: its keys, the settled sigils, and where the tail entries start. */
  lemma {:induction false} SealedDecodes(spans: seq<SpanFields>, hash: Hash)
    requires |SegmentFile(spans, hash)| < U64
    ensures DecodeFile(SegmentFile(spans, hash), hash) == Ok(Decoded(SpanKeys(), SealedSigils(spans), SealedTail(spans)))
  {
    hide RowFileBytes, BasicHeader, ClassicIndex, Join, SpanKeys, KnownSigils, DecodeHeader, FlagsOf, WireFlags.Value,
         PreambleBytes, At, ReadLe, TailPtr, Open, ReadSchema, OpenRow, CompactRefines.SeenSigils, SpanRows,
         SegmentFile, DecodeFile, SpanObjects, RecordOffsets;
    var sigils, header, objects := CompactRefines.SeenSigils(10, SpanRows(spans)), SealedHeader(spans), SpanObjects(spans);
    var index := ClassicIndex(RecordOffsets(objects, 32 + |header|));
    var file, tail := SegmentFile(spans, hash), TailPtr(header, Join(objects));
    SegmentIs(spans, hash);
    IndexLen(RecordOffsets(objects, 32 + |header|));
    RowFileOpens(VERSION, PlainFlags(), header, Join(objects), index, hash);
    FileParts(VERSION, PlainFlags(), header, Join(objects), index, hash);
    PreambleReads(file, VERSION, PlainFlags(), hash(header), 0);
    HeaderDecodes(file, sigils, hash);
    LastMagic(file, tail + |index|, tail);
    DecodesPlain(file, hash, tail, Header(SpanKeys(), KnownSigils(10, sigils), 32 + |header|));
  }

  lemma {:induction false} KeyCount()
    ensures |SpanKeys()| == 10
  {
  }

  lemma {:induction false} LastMagic(data: Bytes, off: nat, tailPtr: nat)
    requires At(data, off, Footer(tailPtr)) && tailPtr < U64 && |data| == off + 12
    ensures ReadLe(data[|data| - 4..]) == MAGIC_FOOTER
  {
    FooterReads(data, off, tailPtr);
    assert data[|data| - 4..] == data[off + 8..off + 12];
  }

  lemma {:induction false} DecodesPlain(data: Bytes, hash: Hash, tailPtr: nat, header: Header)
    requires |data| >= 48 && ReadLe(data[0..4]) == MAGIC_FILE && ReadLe(data[|data| - 4..]) == MAGIC_FOOTER
    requires FlagsOf(ReadLe(data[6..8])) == PlainFlags() && ReadLe(data[16..24]) == 0
    requires ReadLe(data[|data| - 12..|data| - 4]) == tailPtr && DecodeHeader(data, hash) == Ok(header)
    ensures DecodeFile(data, hash) == Ok(Decoded(header.keys, header.sigils, tailPtr + 4))
  {
    hide ReadLe, FlagsOf, DecodeHeader;
  }

  // ── The tail entries ──────────────────────────────────────────────────────

  lemma {:induction false} TailOffsetsAre(data: Bytes, pos: nat, offs: seq<nat>, k: nat)
    requires k <= |offs| && At(data, pos, ClassicEntries(offs, k)) && |data| == pos + 10 * (|offs| - k) + 12
    requires forall j :: 0 <= j < |offs| ==> offs[j] < U64
    ensures TailOffsets(data, pos) == offs[k..]
    decreases |offs| - k
  {
    hide ReadLe, Le;
    if k < |offs| {
      var entry := Le(k, 2) + Le(offs[k], 8);
      AtConcat(data, pos, entry, ClassicEntries(offs, k + 1));
      AtConcat(data, pos, Le(k, 2), Le(offs[k], 8));
      Pow256Values();
      AtLe(data, pos + 2, offs[k], 8);
      TailOffsetsAre(data, pos + 10, offs, k + 1);
      assert offs[k..] == [offs[k]] + offs[k + 1..];
    }
  }

  /** The sealed records lie where the tail entries say. */
  ghost predicate RecordsAt(data: Bytes, offs: seq<nat>, spans: seq<SpanFields>, sigils: Bytes)
  {
    |offs| == |spans| && forall k :: 0 <= k < |spans| ==> At(data, offs[k], SpanObject(spans[k])) && SigilsFit(spans[k], sigils)
  }

  /** The tail entries lead to the records. */
  lemma {:induction false} FileHolds(header: Bytes, objects: seq<Bytes>, hash: Hash)
    requires |FileOf(header, objects, hash)| < U64
    ensures var file, offs := FileOf(header, objects, hash), RecordOffsets(objects, 32 + |header|);
            && |file| >= 12 && TailOffsets(file, TailPtr(header, Join(objects)) + 4) == offs
            && forall k :: 0 <= k < |objects| ==> At(file, offs[k], objects[k])
  {
    hide RowFileBytes, ClassicIndex, Join, TailOffsets, Footer, Le, At;
    var offs, file := RecordOffsets(objects, 32 + |header|), FileOf(header, objects, hash);
    FileParts(VERSION, PlainFlags(), header, Join(objects), ClassicIndex(offs), hash);
    forall k | 0 <= k < |objects|
      ensures At(file, offs[k], objects[k]) && offs[k] < U64
    {
      JoinAt(file, 32 + |header|, objects, k);
      AtInside(file, offs[k], objects[k]);
    }
    EntriesAt(file, TailPtr(header, Join(objects)), offs);
  }

  /** The tail index of the sealed file has one entry a record, and it leads to the logged record. */
  lemma {:induction false} SealedRecords(spans: seq<SpanFields>, hash: Hash)
    requires |SegmentFile(spans, hash)| < U64
    ensures |SegmentFile(spans, hash)| >= 12 && TailOffsets(SegmentFile(spans, hash), SealedTail(spans)) == SealedOffsets(spans)
    ensures RecordsAt(SegmentFile(spans, hash), SealedOffsets(spans), spans, SealedSigils(spans))
  {
    hide SealedHeader, Join, SpanObject, SigilsFit, TailOffsets, SealedSigils, SegmentFile, FileOf, RecordOffsets, At,
         TailPtr;
    SegmentIs(spans, hash);
    FileHolds(SealedHeader(spans), SpanObjects(spans), hash);
    forall k | 0 <= k < |spans|
      ensures At(SegmentFile(spans, hash), SealedOffsets(spans)[k], SpanObject(spans[k])) && SigilsFit(spans[k], SealedSigils(spans))
    {
      assert SpanObjects(spans)[k] == SpanObject(spans[k]);
      SealedSigilsFit(spans, k);
    }
  }

  lemma {:induction false} EntriesAt(data: Bytes, tail: nat, offs: seq<nat>)
    requires At(data, tail, ClassicIndex(offs) + Footer(tail)) && |data| == tail + |ClassicIndex(offs)| + 12
    requires forall j :: 0 <= j < |offs| ==> offs[j] < U64
    ensures |data| >= 12 && TailOffsets(data, tail + 4) == offs
  {
    hide ClassicEntries, TailOffsets, Footer, Le;
    AtConcat(data, tail, ClassicIndex(offs), Footer(tail));
    AtConcat(data, tail, Le(|offs|, 4), ClassicEntries(offs, 0));
    TailOffsetsAre(data, tail + 4, offs, 0);
    assert offs[0..] == offs;
  }

  // ── Answers ───────────────────────────────────────────────────────────────

  /** A record of a clean span in normal form is filed under its trace and read back as its view. */
  lemma {:induction false} RecordAnswers(data: Bytes, off: nat, f: SpanFields, sigils: Bytes)
    requires At(data, off, SpanObject(f)) && SpanFits(f) && SigilsFit(f, sigils) && CleanSpan(f)
    ensures RecordTrace(data, SpanKeys(), sigils, off) == Some(TraceId(f.traceHi, f.traceLo))
    ensures DecodeObject(data, off, SpanKeys(), sigils).Ok?
    ensures ViewOfFields(DecodeObject(data, off, SpanKeys(), sigils).value) == Some(ViewOf(Norm(f)))
  {
    hide Object, At, InReach, DecodeObject, SpanKeys, SigilsFit, CleanSpan, GetInt, Decoder.GetText, GetBlob, HasNull,
         SpanWrites;
    SpanDecodes(data, off, f, sigils);
    CleanDecodes(data, off, f, sigils);
    ObjectHolds(data, off, f);
  }

  lemma {:induction false} ObjectHolds(data: Bytes, off: nat, f: SpanFields)
    requires At(data, off, SpanObject(f))
    ensures off + 8 <= |data|
  {
    hide SpanWrites, Object;
    ObjectStarts(data, off, SpanWrites(f), 10);
  }

  /** Clean spans in normal form. */
  ghost predicate Normal(spans: seq<SpanFields>)
  {
    forall k :: 0 <= k < |spans| ==> SpanFits(spans[k]) && CleanSpan(spans[k]) && Norm(spans[k]) == spans[k]
  }

  lemma {:induction false} NormsAreNormal(spans: seq<SpanFields>)
    requires Sound(spans)
    ensures Normal(Norms(spans))
  {
    hide SpanFits, CleanSpan, Storable, SpanObject;
    forall k | 0 <= k < |spans|
      ensures SpanFits(Norms(spans)[k]) && CleanSpan(Norms(spans)[k]) && Norm(Norms(spans)[k]) == Norms(spans)[k]
    {
      NormSameObject(spans[k]);
    }
  }

  /** The hash index and the decoder together give exactly the spans of a trace. */
  lemma {:induction false} TraceAnswers(data: Bytes, offs: seq<nat>, spans: seq<SpanFields>, sigils: Bytes,
      trace: nat, n: nat)
    requires RecordsAt(data, offs, spans, sigils) && n <= |spans|
    requires Normal(spans)
    ensures SpansAt(data, SpanKeys(), sigils, OfTrace(data, SpanKeys(), sigils, offs[..n], trace)) == TraceViews(spans, trace, n)
  {
    hide DecodeObject, RecordTrace, SpanObject, SpanKeys, SpanFits, CleanSpan, ViewOf, ViewOfFields, SigilsFit, Norm,
         TraceId, At;
    if n > 0 {
      TraceAnswers(data, offs, spans, sigils, trace, n - 1);
      assert offs[..n][..n - 1] == offs[..n - 1];
      RecordAnswers(data, offs[n - 1], spans[n - 1], sigils);
      var front := OfTrace(data, SpanKeys(), sigils, offs[..n - 1], trace);
      assert (front + [offs[n - 1]])[..|front|] == front;
      assert front + [] == front;
    }
  }

  /** The segment that sealing a log gives opens. */
  lemma {:induction false} SealedOpens(spans: seq<SpanFields>, hash: Hash)
    requires |SegmentFile(Norms(spans), hash)| < U64
    ensures DecodeFile(SegmentFile(Norms(spans), hash), hash).Ok?
  {
    hide SegmentFile, DecodeFile;
    SealedDecodes(Norms(spans), hash);
  }

  lemma {:induction false} LoadedAnswers(segment: SealedSegment, data: Bytes, hash: Hash, spans: seq<SpanFields>,
      tail: nat, offs: seq<nat>, trace: nat)
    requires Loaded(segment, data, hash) && DecodeFile(data, hash) == Ok(Decoded(SpanKeys(), segment.sigils, tail))
    requires TailOffsets(data, tail) == offs && RecordsAt(data, offs, spans, segment.sigils) && Normal(spans)
    ensures SpansAt(segment.data, segment.keys, segment.sigils, Filed(segment.index, trace)) == TraceSpans(spans, trace)
  {
    hide DecodeFile, SpanKeys, RecordsAt, Normal, TailOffsets, SpansAt, OfTrace, Filed, TraceViews;
    assert |offs| == |spans| by { OneEach(data, offs, spans, segment.sigils); }
    TraceAnswers(data, offs, spans, segment.sigils, trace, |spans|);
    assert offs[..|spans|] == offs;
  }

  lemma {:induction false} OneEach(data: Bytes, offs: seq<nat>, spans: seq<SpanFields>, sigils: Bytes)
    requires RecordsAt(data, offs, spans, sigils)
    ensures |offs| == |spans|
  {
    hide At, SpanObject, SigilsFit;
  }

  lemma {:induction false} LoadedSigils(segment: SealedSegment, data: Bytes, hash: Hash, decoded: Decoded)
    requires Loaded(segment, data, hash) && DecodeFile(data, hash) == Ok(decoded)
    ensures segment.sigils == decoded.sigils
  {
    hide DecodeFile, Indexes;
  }

  /**
   Append to query, end to end: in the segment that sealing a log gives, the records filed under a trace
   decode to exactly the appended spans of that trace, in the order they were appended.
   */
  lemma {:induction false} SealedAnswers(spans: seq<SpanFields>, trace: nat, hash: Hash, segment: SealedSegment)
    requires Sound(spans) && |SegmentFile(Norms(spans), hash)| < U64
    requires Loaded(segment, SegmentFile(Norms(spans), hash), hash)
    ensures SpansAt(segment.data, segment.keys, segment.sigils, Filed(segment.index, trace)) == TraceSpans(Norms(spans), trace)
  {
    hide SpanKeys, SealedSigils, SealedOffsets, SealedTail, TailOffsets, SegmentFile, DecodeFile, SpansAt, RecordsAt,
         Filed, TraceSpans, Sound, Normal, Loaded;
    var norms := Norms(spans);
    SealedDecodes(norms, hash);
    SealedRecords(norms, hash);
    NormsAreNormal(spans);
    LoadedSigils(segment, SegmentFile(norms, hash), hash, Decoded(SpanKeys(), SealedSigils(norms), SealedTail(norms)));
    LoadedAnswers(segment, SegmentFile(norms, hash), hash, norms, SealedTail(norms), SealedOffsets(norms), trace);
  }

  /** The live log answers the same: the indexed records of a trace decode to its appended spans. */
  lemma {:induction false} LiveAnswers(spans: seq<SpanFields>, trace: nat, n: nat)
    requires Sound(spans) && n <= |spans|
    ensures LiveSpans(Log(spans), FullIndex(spans)[..n], trace) == TraceViews(Norms(spans), trace, n)
  {
    hide DecodeObject, SpanObject, SpanKeys, SpanFits, CleanSpan, ViewOf, ViewOfFields, SigilsFit, Norm, Storable, At,
         FullIndex, Log, ReadLe, SpanSigils, TraceId, RecordTrace;
    if n > 0 {
      LiveAnswers(spans, trace, n - 1);
      assert FullIndex(spans)[..n][..n - 1] == FullIndex(spans)[..n - 1];
      var f := spans[n - 1];
      LiveRecord(spans, n - 1);
      LogSigilsFit(f);
      RecordAnswers(Log(spans), FullIndex(spans)[n - 1].offset, f, SpanSigils());
      NormKeepsTrace(f);
    }
  }

  lemma {:induction false} LogSigilsFit(f: SpanFields)
    ensures SigilsFit(f, SpanSigils())
  {
  }

  lemma {:induction false} NormKeepsTrace(f: SpanFields)
    ensures TraceId(Norm(f).traceHi, Norm(f).traceLo) == TraceId(f.traceHi, f.traceLo)
  {
  }

  /** The entry is of the span's trace, and the span's object lies at its offset. */
  ghost predicate RecordIsAt(file: Bytes, e: WalEntry, f: SpanFields)
  {
    && e.trace == TraceId(f.traceHi, f.traceLo) && At(file, e.offset, SpanObject(f))
    && e.offset + 4 <= |file| && ReadLe(file[e.offset..e.offset + 4]) == CompactRecord.MAGIC_OBJ
  }

  lemma {:induction false} LiveRecord(spans: seq<SpanFields>, k: nat)
    requires k < |spans| && Storable(spans[k])
    ensures RecordIsAt(Log(spans), FullIndex(spans)[k], spans[k])
  {
    hide WalHeader, Join, SpanObject, TraceId;
    var file, objects := Log(spans), SpanObjects(spans);
    assert At(file, DataStart(), Join(objects));
    JoinAt(file, DataStart(), objects, k);
    SpanIsObject(spans[k]);
    ObjectWhole(file, DataStart() + |Join(objects[..k])|, objects[k]);
  }

  // ── Several segments and a live log ───────────────────────────────────────

  /** The spans of several logs, one log after another. */
  function Together(logs: seq<seq<SpanFields>>): seq<SpanFields>
  {
    if |logs| == 0 then [] else Together(logs[..|logs| - 1]) + logs[|logs| - 1]
  }

  /** Each segment is loaded from what sealing one of the logs gives. */
  ghost predicate LoadedFrom(segments: seq<SealedSegment>, logs: seq<seq<SpanFields>>, hash: Hash)
  {
    |segments| == |logs| && forall k :: 0 <= k < |logs| ==> SealedWell(logs[k], hash) && Loaded(segments[k], SegmentFile(Norms(logs[k]), hash), hash)
  }

  /** A log of sound spans whose segment a 64-bit length holds. */
  ghost predicate SealedWell(spans: seq<SpanFields>, hash: Hash)
  {
    Sound(spans) && |SegmentFile(Norms(spans), hash)| < U64
  }

  lemma {:induction false} ViewsJoin(a: seq<SpanFields>, b: seq<SpanFields>, trace: nat, n: nat)
    requires n <= |b|
    ensures TraceViews(Norms(a + b), trace, |a| + n) == TraceSpans(Norms(a), trace) + TraceViews(Norms(b), trace, n)
  {
    hide ViewOf, TraceId, Norm;
    if n > 0 {
      ViewsJoin(a, b, trace, n - 1);
    } else {
      ViewsPrefix(Norms(a), Norms(a + b), trace, |a|);
    }
  }

  lemma {:induction false} ViewsPrefix(a: seq<SpanFields>, b: seq<SpanFields>, trace: nat, n: nat)
    requires n <= |a| && n <= |b| && forall k :: 0 <= k < n ==> a[k] == b[k]
    ensures TraceViews(a, trace, n) == TraceViews(b, trace, n)
  {
    hide ViewOf, TraceId;
    if n > 0 { ViewsPrefix(a, b, trace, n - 1); }
  }

  /** The segments of several sealed logs hold, together, exactly the spans of the trace, log after log. */
  lemma {:induction false} SegmentsAnswer(logs: seq<seq<SpanFields>>, segments: seq<SealedSegment>, trace: nat,
      hash: Hash)
    requires LoadedFrom(segments, logs, hash)
    ensures SegmentSpans(segments, trace) == TraceSpans(Norms(Together(logs)), trace)
  {
    hide SegmentFile, SpansAt, Sound, Loaded, Filed, Norms, TraceViews;
    if |logs| > 0 {
      var last := |logs| - 1;
      SegmentsAnswer(logs[..last], segments[..last], trace, hash);
      SealedAnswers(logs[last], trace, hash, segments[last]);
      JoinedViews(Together(logs[..last]), logs[last], trace);
    } else {
      NoViews(trace);
    }
  }

  lemma {:induction false} JoinedViews(a: seq<SpanFields>, b: seq<SpanFields>, trace: nat)
    ensures TraceSpans(Norms(a + b), trace) == TraceSpans(Norms(a), trace) + TraceSpans(Norms(b), trace)
  {
    hide TraceViews, Norm;
    ViewsJoin(a, b, trace, |b|);
  }

  lemma {:induction false} NoViews(trace: nat)
    ensures TraceSpans(Norms([]), trace) == []
  {
  }

  /**
   A query over any number of sealed logs and a live one finds exactly the spans of the trace among all that
   were appended, in the order of the logs.
   */
  lemma {:induction false} QueryAnswers(logs: seq<seq<SpanFields>>, segments: seq<SealedSegment>,
      live: seq<SpanFields>, trace: nat, hash: Hash)
    requires LoadedFrom(segments, logs, hash) && Sound(live)
    ensures SegmentSpans(segments, trace) + LiveSpans(Log(live), FullIndex(live), trace) == TraceSpans(Norms(Together(logs) + live), trace)
  {
    hide LoadedFrom, SegmentSpans, LiveSpans, FullIndex, Log, Sound, TraceViews, Norms, Together;
    SegmentsAnswer(logs, segments, trace, hash);
    LiveAnswers(live, trace, |live|);
    assert FullIndex(live)[..|live|] == FullIndex(live);
    JoinedViews(Together(logs), live, trace);
    NormsLen(live);
  }

  lemma {:induction false} NormsLen(spans: seq<SpanFields>)
    ensures |Norms(spans)| == |spans|
  {
  }

  /** So sealing a log changes no answer: the spans are the same while it is live and when it is a segment. */
  lemma {:induction false} SealingKeepsAnswers(spans: seq<SpanFields>, trace: nat, hash: Hash, segment: SealedSegment)
    requires Sound(spans) && |SegmentFile(Norms(spans), hash)| < U64
    requires Loaded(segment, SegmentFile(Norms(spans), hash), hash)
    ensures SegmentSpans([], trace) + LiveSpans(Log(spans), FullIndex(spans), trace) == TraceSpans(Norms(spans), trace)
    ensures SegmentSpans([segment], trace) + LiveSpans(Log([]), FullIndex([]), trace) == TraceSpans(Norms(spans), trace)
  {
    hide SegmentFile, SegmentSpans, LiveSpans, FullIndex, Log, Sound, TraceViews, Loaded, Norms;
    QueryAnswers([], [], spans, trace, hash);
    assert [spans][..0] == [] && [] + spans == spans && spans + [] == spans;
    NothingIsSound();
    QueryAnswers([spans], [segment], [], trace, hash);
  }

  lemma {:induction false} NothingIsSound()
    ensures Sound([])
  {
  }
}
