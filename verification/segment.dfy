/**
 Sealed segments and trace queries. Loading a segment scans its tail index once and files every record's
 offset under its trace; a query reads the records filed under one trace, adds those of the live log, and
 sorts them by start time.
 */
module Segment {
  import opened Bytes
  import opened CompactSchema
  import opened SchemaHeader
  import opened Preamble
  import opened TailIndex
  import opened FileReader
  import opened RowFile
  import opened RowObject
  import opened Decoder
  import opened Span
  import opened SpanCodec
  import opened WalRecovery
  import opened SpanLog
  import CompactRefines
  import CompactRecord
  import Columns

  // ── Opening a segment ─────────────────────────────────────────────────────

  /** The key names of the decoder's header parser, which also bounds their length. */
  function ShortNames(data: Bytes, p: nat, n: nat): (r: Result<Parsed>)
    ensures r.Ok? ==> p <= r.value.next
    decreases n
  {
    if n == 0 then Ok(Parsed([], p))
    else if p > |data| then Err(OutOfBounds)
    else
      var q := NulAt(data, p);
      if q == |data| || q - p > 257 then Err(OutOfBounds)
      else
        var rest :- ShortNames(data, q + 1, n - 1);
        Ok(Parsed([data[p..q]] + rest.names, rest.next))
  }

  datatype Decoded = Decoded(keys: seq<Bytes>, sigils: Bytes, tailStart: nat)

  /** The schema and hash checks of `decode`, for a row file with an embedded v1.2 schema. */
  function DecodeHeader(data: Bytes, hash: Hash): Result<Header>
    requires |data| >= 34
  {
    var n := ReadLe(data[32..34]);
    if n > 256 || 34 + n > |data| then Err(OutOfBounds)
    else
      var names :- ShortNames(data, 34 + n, n);
      var end := RoundUp(names.next, 8);
      if end > |data| then Err(OutOfBounds)
      else if hash(data[32..end]) != ReadLe(data[8..16]) then Err(DictMismatch)
      else Ok(Header(names.names, data[34..34 + n], end))
  }

  /** `decode`, of a v1.2 row file. */
  function DecodeFile(data: Bytes, hash: Hash): (r: Result<Decoded>)
    ensures r.Ok? ==> |data| >= 32
  {
    if |data| < 32 then Err(OutOfBounds)
    else if ReadLe(data[0..4]) != MAGIC_FILE || ReadLe(data[|data| - 4..]) != MAGIC_FOOTER then Err(BadMagic)
    else if FlagsOf(ReadLe(data[6..8])) != PlainFlags() then Err(UnsupportedLayout)
    else
      var preambleTail := ReadLe(data[16..24]);
      if preambleTail == 0 && |data| < 44 then Err(OutOfBounds)
      else
        var tailPtr := if preambleTail == 0 then ReadLe(data[|data| - 12..|data| - 4]) else preambleTail;
        if |data| < 34 then Ok(Decoded([], [], tailPtr + 4))
        else
          var header :- DecodeHeader(data, hash);
          Ok(Decoded(header.keys, header.sigils, tailPtr + 4))
  }

  // ── The trace index ───────────────────────────────────────────────────────

  /** A span as queries return it. */
  datatype SpanView = SpanView(trace: nat, span: nat, parent: Option<nat>, name: Bytes, service: Bytes,
                               start: Int64, duration: Int64, status: Int64, payload: Option<Bytes>)

  function ViewOf(f: SpanFields): SpanView
  {
    SpanView(TraceId(f.traceHi, f.traceLo), Wrap(f.spanId, 8), if f.parent.None? then None else Some(Wrap(f.parent.value, 8)),
             f.name, f.service, f.start, f.duration, f.status, f.payload)
  }

  /** `extract_trace_id` */
  function TraceOf(fields: seq<Field>): Option<nat>
  {
    var hi :- GetInt(fields, SpanKeys()[0]);
    var lo :- GetInt(fields, SpanKeys()[1]);
    Some(TraceId(hi, lo))
  }

  /** `fields_to_span` */
  function ViewOfFields(fields: seq<Field>): Option<SpanView>
  {
    var f :- SpanOfFields(fields);
    Some(ViewOf(f))
  }

  datatype SealedSegment = SealedSegment(data: Bytes, keys: seq<Bytes>, sigils: Bytes, index: map<nat, seq<nat>>)

  /** The trace a record is filed under, read from the record itself. */
  function RecordTrace(data: Bytes, keys: seq<Bytes>, sigils: Bytes, off: nat): Option<nat>
  {
    if off + 8 > |data| then None
    else
      match DecodeObject(data, off, keys, sigils)
      case Err(_) => TraceOf([])
      case Ok(fields) => TraceOf(fields)
  }

  /** The tail entries from `pos` on, up to the footer. */
  function TailOffsets(data: Bytes, pos: nat): (offs: seq<nat>)
    requires |data| >= 12
    decreases |data| - pos
  {
    if pos + 10 > |data| - 12 then []
    else [ReadLe(data[pos + 2..pos + 10])] + TailOffsets(data, pos + 10)
  }

  /** The offsets of a list whose records belong to a trace. */
  function OfTrace(data: Bytes, keys: seq<Bytes>, sigils: Bytes, offs: seq<nat>, trace: nat): seq<nat>
  {
    if |offs| == 0 then []
    else OfTrace(data, keys, sigils, offs[..|offs| - 1], trace)
         + (if RecordTrace(data, keys, sigils, offs[|offs| - 1]) == Some(trace) then [offs[|offs| - 1]] else [])
  }

  function Filed(index: map<nat, seq<nat>>, trace: nat): seq<nat>
  {
    if trace in index then index[trace] else []
  }

  /** The hash index agrees with a full scan of a list of offsets. */
  ghost predicate Indexes(index: map<nat, seq<nat>>, data: Bytes, keys: seq<Bytes>, sigils: Bytes, offs: seq<nat>)
  {
    forall trace :: Filed(index, trace) == OfTrace(data, keys, sigils, offs, trace)
  }

  /** A segment opened on a file: the file's schema, and an index of every tail entry. */
  ghost predicate Loaded(s: SealedSegment, data: Bytes, hash: Hash)
  {
    && DecodeFile(data, hash).Ok? && |data| >= 12
    && var decoded := DecodeFile(data, hash).value;
       && s.data == data && s.keys == decoded.keys && s.sigils == decoded.sigils
       && Indexes(s.index, data, s.keys, s.sigils, TailOffsets(data, decoded.tailStart))
  }

  lemma {:induction false} FilesOne(before: map<nat, seq<nat>>, index: map<nat, seq<nat>>, data: Bytes,
      keys: seq<Bytes>, sigils: Bytes, seen: seq<nat>, off: nat)
    requires Indexes(before, data, keys, sigils, seen)
    requires var trace := RecordTrace(data, keys, sigils, off);
             index == if trace.None? then before else before[trace.value := Filed(before, trace.value) + [off]]
    ensures Indexes(index, data, keys, sigils, seen + [off])
  {
    hide RecordTrace;
    assert (seen + [off])[..|seen|] == seen;
    forall t: nat
      ensures Filed(index, t) == OfTrace(data, keys, sigils, seen + [off], t)
    {
      assert Filed(before, t) == OfTrace(data, keys, sigils, seen, t);
    }
  }

  /** `SealedSegment::load`: one pass over the tail index; records without a trace are left out. */
  method Load(data: Bytes, hash: Hash) returns (r: Result<SealedSegment>)
    ensures r.Ok? <==> DecodeFile(data, hash).Ok?
    ensures r.Err? ==> DecodeFile(data, hash) == Err(r.error)
    ensures r.Ok? ==> Loaded(r.value, data, hash)
  {
    hide RecordTrace, ReadLe, DecodeHeader, FlagsOf, OfTrace, Indexes;
    var decoded := DecodeFile(data, hash);
    if decoded.Err? { return Err(decoded.error); }
    assert |data| >= 12;
    hide DecodeFile;
    var keys, sigils := decoded.value.keys, decoded.value.sigils;
    var index: map<nat, seq<nat>> := map[];
    var pos := decoded.value.tailStart;
    ghost var seen: seq<nat> := [];
    ghost var all := TailOffsets(data, pos);
    NothingFiled(data, keys, sigils);
    while pos + 10 <= |data| - 12
      invariant 0 <= pos && seen + TailOffsets(data, pos) == all
      invariant Indexes(index, data, keys, sigils, seen)
      decreases |data| - pos
    {
      var off := ReadLe(data[pos + 2..pos + 10]);
      assert seen + ([off] + TailOffsets(data, pos + 10)) == seen + [off] + TailOffsets(data, pos + 10);
      pos := pos + 10;
      var trace := RecordTrace(data, keys, sigils, off);
      ghost var before := index;
      if trace.Some? {
        index := index[trace.value := Filed(index, trace.value) + [off]];
      }
      FilesOne(before, index, data, keys, sigils, seen, off);
      seen := seen + [off];
    }
    assert seen + [] == seen;
    r := Ok(SealedSegment(data, keys, sigils, index));
  }

  lemma {:induction false} NothingFiled(data: Bytes, keys: seq<Bytes>, sigils: Bytes)
    ensures Indexes(map[], data, keys, sigils, [])
  {
  }

  // ── Queries ───────────────────────────────────────────────────────────────

  /** The spans that a list of offsets decodes to. */
  function SpansAt(data: Bytes, keys: seq<Bytes>, sigils: Bytes, offs: seq<nat>): seq<SpanView>
  {
    if |offs| == 0 then []
    else
      var front := SpansAt(data, keys, sigils, offs[..|offs| - 1]);
      match DecodeObject(data, offs[|offs| - 1], keys, sigils)
      case Err(_) => front
      case Ok(fields) => if ViewOfFields(fields).Some? then front + [ViewOfFields(fields).value] else front
  }

  function InsertByStart(s: SpanView, sorted: seq<SpanView>): (r: seq<SpanView>)
    ensures multiset(r) == multiset(sorted) + multiset{s}
  {
    if |sorted| == 0 || s.start <= sorted[0].start then [s] + sorted
    else
      assert sorted == [sorted[0]] + sorted[1..];
      [sorted[0]] + InsertByStart(s, sorted[1..])
  }

  /** `sort_by_key` on the start time, a stable sort. */
  function SortByStart(spans: seq<SpanView>): (r: seq<SpanView>)
    ensures multiset(r) == multiset(spans)
  {
    if |spans| == 0 then []
    else
      assert spans == [spans[0]] + spans[1..];
      InsertByStart(spans[0], SortByStart(spans[1..]))
  }

  ghost predicate Ordered(spans: seq<SpanView>)
  {
    forall j, k :: 0 <= j < k < |spans| ==> spans[j].start <= spans[k].start
  }

  /** The spans of one start time, in order. */
  function StartingAt(spans: seq<SpanView>, t: Int64): seq<SpanView>
  {
    if |spans| == 0 then []
    else (if spans[0].start == t then [spans[0]] else []) + StartingAt(spans[1..], t)
  }

  lemma {:induction false} InsertOrders(s: SpanView, sorted: seq<SpanView>)
    requires Ordered(sorted)
    ensures Ordered(InsertByStart(s, sorted))
  {
    if |sorted| > 0 && s.start > sorted[0].start {
      InsertOrders(s, sorted[1..]);
      var rest := InsertByStart(s, sorted[1..]);
      forall k | 0 <= k < |rest|
        ensures sorted[0].start <= rest[k].start
      {
        assert rest[k] in multiset(rest);
        assert rest[k] == s || rest[k] in sorted[1..];
      }
    }
  }

  lemma {:induction false} InsertIsStable(s: SpanView, sorted: seq<SpanView>, t: Int64)
    ensures StartingAt(InsertByStart(s, sorted), t) == (if s.start == t then [s] else []) + StartingAt(sorted, t)
  {
    hide StartingAt;
    if |sorted| == 0 || s.start <= sorted[0].start {
      StartingCons(s, sorted, t);
    } else {
      InsertIsStable(s, sorted[1..], t);
      StartingCons(sorted[0], InsertByStart(s, sorted[1..]), t);
      StartingCons(sorted[0], sorted[1..], t);
      assert [sorted[0]] + sorted[1..] == sorted;
    }
  }

  lemma {:induction false} StartingCons(s: SpanView, rest: seq<SpanView>, t: Int64)
    ensures StartingAt([s] + rest, t) == (if s.start == t then [s] else []) + StartingAt(rest, t)
  {
    assert ([s] + rest)[1..] == rest;
  }

  /** The sort orders by start time, and spans that start together keep their order: it is the stable sort. */
  lemma {:induction false} SortIsStable(spans: seq<SpanView>, t: Int64)
    ensures Ordered(SortByStart(spans)) && StartingAt(SortByStart(spans), t) == StartingAt(spans, t)
  {
    if |spans| > 0 {
      SortIsStable(spans[1..], t);
      InsertOrders(spans[0], SortByStart(spans[1..]));
      InsertIsStable(spans[0], SortByStart(spans[1..]), t);
    }
  }

  /** The live log's part of a query: the indexed records of the trace. */
  function LiveSpans(file: Bytes, index: seq<WalEntry>, trace: nat): seq<SpanView>
  {
    if |index| == 0 then []
    else
      var front, e := LiveSpans(file, index[..|index| - 1], trace), index[|index| - 1];
      if e.trace != trace then front
      else if e.offset + 4 > |file| || ReadLe(file[e.offset..e.offset + 4]) != CompactRecord.MAGIC_OBJ then front
      else
        match DecodeObject(file, e.offset, SpanKeys(), SpanSigils())
        case Err(_) => front
        case Ok(fields) => if ViewOfFields(fields).Some? then front + [ViewOfFields(fields).value] else front
  }

  function SegmentSpans(segments: seq<SealedSegment>, trace: nat): seq<SpanView>
  {
    if |segments| == 0 then []
    else
      var s := segments[|segments| - 1];
      SegmentSpans(segments[..|segments| - 1], trace) + SpansAt(s.data, s.keys, s.sigils, Filed(s.index, trace))
  }

  /** `find_by_trace`, over segments in file order and then the live log. */
  method FindByTrace(segments: seq<SealedSegment>, file: Bytes, index: seq<WalEntry>, trace: nat)
      returns (found: seq<SpanView>)
    ensures found == SortByStart(SegmentSpans(segments, trace) + LiveSpans(file, index, trace))
  {
    hide DecodeObject, ViewOfFields, ReadLe, SpanKeys, SpanSigils;
    var spans: seq<SpanView> := [];
    for k := 0 to |segments|
      invariant spans == SegmentSpans(segments[..k], trace)
    {
      assert segments[..k + 1][..k] == segments[..k];
      var seg := segments[k];
      var offs := Filed(seg.index, trace);
      ghost var before := spans;
      for i := 0 to |offs|
        invariant spans == before + SpansAt(seg.data, seg.keys, seg.sigils, offs[..i])
      {
        assert offs[..i + 1][..i] == offs[..i];
        var fields := DecodeRecordAt(seg.data, offs[i], seg.keys, seg.sigils);
        if fields.Ok? && ViewOfFields(fields.value).Some? {
          spans := spans + [ViewOfFields(fields.value).value];
        }
      }
      assert offs[..|offs|] == offs;
    }
    assert segments[..|segments|] == segments;
    spans := AddLive(spans, file, index, trace);
    found := SortByStart(spans);
  }

  method AddLive(before: seq<SpanView>, file: Bytes, index: seq<WalEntry>, trace: nat) returns (spans: seq<SpanView>)
    ensures spans == before + LiveSpans(file, index, trace)
  {
    hide DecodeObject, ViewOfFields, ReadLe, SpanKeys, SpanSigils;
    spans := before;
    for k := 0 to |index|
      invariant spans == before + LiveSpans(file, index[..k], trace)
    {
      assert index[..k + 1][..k] == index[..k];
      var e := index[k];
      if e.trace == trace && e.offset + 4 <= |file| && ReadLe(file[e.offset..e.offset + 4]) == CompactRecord.MAGIC_OBJ {
        var fields := DecodeRecordAt(file, e.offset, SpanKeys(), SpanSigils());
        if fields.Ok? && ViewOfFields(fields.value).Some? {
          spans := spans + [ViewOfFields(fields.value).value];
        }
      }
    }
    assert index[..|index|] == index;
  }
}
