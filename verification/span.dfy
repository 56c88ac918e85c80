/** A span, the row object it is logged as, and the identity that recovery reads back from the object's bytes. */
module Span {
  import opened Bytes
  import opened Bitmask
  import opened CompactSchema
  import opened SchemaHeader
  import opened RowObject
  import Columns
  import CompactCells
  import CompactRecord
  import Decoder

  datatype SpanFields = SpanFields(traceHi: Int64, traceLo: Int64, spanId: Int64, parent: Option<Int64>, name: Bytes, service: Bytes,
                                   start: Int64, duration: Int64, status: Int64, payload: Option<Bytes>)

  // ── The span schema ───────────────────────────────────────────────────────

  function Ascii(s: string): (b: Bytes)
    ensures |b| == |s|
    ensures forall i :: 0 <= i < |s| && s[i] as int < 256 ==> b[i] == s[i] as int
  {
    seq(|s|, i requires 0 <= i < |s| => if s[i] as int < 256 then s[i] as int else 63)
  }

  function KeyText(k: nat): string
  {
    match k
    case 0 => "trace_id_hi"
    case 1 => "trace_id_lo"
    case 2 => "span_id"
    case 3 => "parent_span_id"
    case 4 => "name"
    case 5 => "service"
    case 6 => "start_time_ns"
    case 7 => "duration_ns"
    case 8 => "status_code"
    case _ => "payload"
  }

  function SpanKeys(): (keys: seq<Bytes>)
    ensures |keys| == 10
  {
    seq(10, k requires 0 <= k => Ascii(KeyText(k)))
  }

  /** `SPAN_SIGILS`, which decode a logged span. */
  function SpanSigils(): (s: Bytes)
    ensures |s| == 10
  {
    [SIGIL_INT, SIGIL_INT, SIGIL_INT, SIGIL_INT, SIGIL_STR, SIGIL_STR, SIGIL_TIME, SIGIL_INT, SIGIL_INT, SIGIL_BINARY]
  }

  lemma {:induction false} TextIsPlain(k: nat)
    requires k < 10
    ensures 4 <= |KeyText(k)| <= 14 && forall i :: 0 <= i < |KeyText(k)| ==> 0 < KeyText(k)[i] as int < 256
  {
  }

  lemma {:induction false} KeysAre(k: nat)
    requires k < 10
    ensures SpanKeys()[k] == Ascii(KeyText(k)) && |SpanKeys()[k]| <= 14 && 0 !in SpanKeys()[k]
  {
    TextIsPlain(k);
    hide KeyText;
  }

  lemma {:induction false} KeysNulFree()
    ensures NulFree(SpanKeys())
  {
    hide SpanKeys;
    forall k | 0 <= k < 10
      ensures 0 !in SpanKeys()[k]
    {
      KeysAre(k);
    }
  }

  lemma {:induction false} KeysShort()
    ensures forall k :: 0 <= k < 10 ==> |SpanKeys()[k]| <= 14
  {
    hide SpanKeys;
    forall k | 0 <= k < 10
      ensures |SpanKeys()[k]| <= 14
    {
      KeysAre(k);
    }
  }

  /** Two keys differ in length or in a character. */
  lemma {:induction false} TextsDiffer(j: nat, k: nat) returns (i: nat)
    requires j < k < 10
    ensures |KeyText(j)| != |KeyText(k)| || (i < |KeyText(j)| && KeyText(j)[i] != KeyText(k)[i])
  {
    i := if j == 0 && k == 1 then 9 else if j == 2 && k == 5 then 1 else 0;
  }

  lemma {:induction false} AsciiDiffers(a: string, b: string, i: nat)
    requires |a| != |b| || (i < |a| && a[i] != b[i] && a[i] as int < 256 && b[i] as int < 256)
    ensures Ascii(a) != Ascii(b)
  {
    if |a| == |b| { assert Ascii(a)[i] != Ascii(b)[i]; }
  }

  lemma {:induction false} KeysDistinct()
    ensures Decoder.DistinctKeys(SpanKeys())
  {
    hide SpanKeys, KeyText, Ascii;
    forall j, k | 0 <= j < k < 10
      ensures SpanKeys()[j] != SpanKeys()[k]
    {
      KeysAre(j);
      KeysAre(k);
      TextIsPlain(j);
      TextIsPlain(k);
      var i := TextsDiffer(j, k);
      AsciiDiffers(KeyText(j), KeyText(k), i);
    }
  }

  // ── The object ────────────────────────────────────────────────────────────

  function ParentCell(parent: Option<Int64>): Columns.Cell
  {
    if parent.Some? then Columns.I64(parent.value) else Columns.Null
  }

  /** The cell that `append` writes to a slot. */
  function SpanCell(f: SpanFields, slot: nat): Columns.Cell
  {
    match slot
    case 0 => Columns.I64(f.traceHi)
    case 1 => Columns.I64(f.traceLo)
    case 2 => Columns.I64(f.spanId)
    case 3 => ParentCell(f.parent)
    case 4 => Columns.Str(f.name)
    case 5 => Columns.Str(f.service)
    case 6 => Columns.Time(f.start)
    case 7 => Columns.I64(f.duration)
    case 8 => Columns.I64(f.status)
    case _ => if f.payload.Some? then Columns.Binary(f.payload.value) else Columns.Absent
  }

  /** The writes of `append`, in its order. */
  function SpanWrites(f: SpanFields): (w: seq<Write>)
    ensures |w| == (if f.payload.Some? then 10 else 9)
    ensures forall k :: 0 <= k < |w| ==> w[k] == Write(k, SpanCell(f, k))
  {
    seq(if f.payload.Some? then 10 else 9, k requires 0 <= k => Write(k, SpanCell(f, k)))
  }

  lemma {:induction false} SpanWritable(f: SpanFields)
    ensures Writable(SpanWrites(f), 10)
  {
  }

  lemma {:induction false} LookupNone(writes: seq<Write>, slot: nat)
    requires forall k :: 0 <= k < |writes| ==> writes[k].slot != slot
    ensures Lookup(writes, slot).None?
  {
    if |writes| > 0 { LookupNone(writes[..|writes| - 1], slot); }
  }

  /** The cell of each slot, and where its write is. */
  lemma {:induction false} SpanLookup(f: SpanFields, s: nat)
    requires s < 10
    ensures s < |SpanWrites(f)| ==> Lookup(SpanWrites(f), s) == Some(SpanWrites(f)[s].cell) && IndexOf(SpanWrites(f), s) == s
    ensures s >= |SpanWrites(f)| ==> Lookup(SpanWrites(f), s).None?
  {
    hide SpanWrites;
    SpanWritable(f);
    if s < |SpanWrites(f)| { LookupAt(SpanWrites(f), 10, s); } else { LookupNone(SpanWrites(f), s); }
  }

  function SpanObject(f: SpanFields): Bytes { Object(SpanWrites(f), 10) }

  lemma {:induction false} TenKeys()
    ensures MaskLen(10) == 2 && ValueStart(10) == 32
  {
    assert MaskLen(3) == 1;
    RoundUpUnique(30, 8, 32);
  }

  /** The first three values lie right after the header. */
  lemma {:induction false} FirstValues(f: SpanFields, k: nat)
    requires k < 3
    ensures Rel(SpanWrites(f), 10, k) == 32 + 8 * k
  {
    TenKeys();
    var w := SpanWrites(f);
    assert w[..0] == [] && Values([]) == [];
    if k > 0 { ValuesStep(w, 0); }
    if k > 1 { ValuesStep(w, 1); }
  }

  // ── Identity ──────────────────────────────────────────────────────────────

  /** A trace identifier is the two halves' bits, put together. */
  function TraceId(hi: Int64, lo: Int64): nat { Wrap(hi, 8) * U64 + Wrap(lo, 8) }

  datatype Identity = Identity(trace: nat, span: nat)

  function IdentityOf(f: SpanFields): Identity { Identity(TraceId(f.traceHi, f.traceLo), Wrap(f.spanId, 8)) }

  /** The bitmask loop of `extract_trace_span_id`: at most 17 bytes. */
  function IdMask(obj: Bytes, p: nat, bits: seq<bool>): (r: Option<Decoder.Mask>)
    decreases |obj| - p
  {
    if p >= |obj| then None
    else
      var more := bits + Decoder.SevenBits(obj[p]);
      if !More(obj[p]) then Some(Decoder.Mask(more, p + 1))
      else if |more| > 16 * 7 then None
      else IdMask(obj, p + 1, more)
  }

  /** `read_i64_at_slot` */
  function IntAtSlot(obj: Bytes, mask: Decoder.Mask, slot: nat): Option<Int64>
  {
    if slot >= |mask.bits| || !mask.bits[slot] then None
    else
      var rel :- ReadU(obj, mask.end + 2 * Count(mask.bits[..slot]), 2);
      if rel + 8 > |obj| then None else Some(ReadI64(obj[rel..rel + 8]))
  }

  /** `extract_trace_span_id` */
  function ExtractIdentity(obj: Bytes): Option<Identity>
  {
    var mask :- IdMask(obj, 8, []);
    if mask.end + 2 * Count(mask.bits) > |obj| then None
    else
      var hi :- IntAtSlot(obj, mask, 0);
      var lo :- IntAtSlot(obj, mask, 1);
      var span :- IntAtSlot(obj, mask, 2);
      Some(Identity(TraceId(hi, lo), Wrap(span, 8)))
  }

  method ExtractTraceSpanId(obj: Bytes) returns (id: Option<Identity>)
    ensures id == ExtractIdentity(obj)
  {
    hide Bit, IntAtSlot, Count;
    var bits: seq<bool> := [];
    var p := 8;
    while true
      invariant 8 <= p && IdMask(obj, 8, []) == IdMask(obj, p, bits)
      decreases |obj| - p
    {
      if p >= |obj| { return None; }
      bits := bits + Decoder.SevenBits(obj[p]);
      p := p + 1;
      if !More(obj[p - 1]) { break; }
      if |bits| > 16 * 7 { return None; }
    }
    var mask := Decoder.Mask(bits, p);
    assert IdMask(obj, 8, []) == Some(mask);
    var count := Decoder.CountLoop(bits);
    if p + 2 * count > |obj| { return None; }
    var hi := IntAtSlot(obj, mask, 0);
    if hi.None? { return None; }
    var lo := IntAtSlot(obj, mask, 1);
    if lo.None? { return None; }
    var span := IntAtSlot(obj, mask, 2);
    if span.None? { return None; }
    id := Some(Identity(TraceId(hi.value, lo.value), Wrap(span.value, 8)));
  }

  lemma {:induction false} IdMaskReads(obj: Bytes, p: nat, present: seq<bool>, bits: seq<bool>)
    requires At(obj, p, MaskBytes(present)) && |bits| + 7 * (MaskLen(|present|) - 1) <= 16 * 7
    ensures IdMask(obj, p, bits) == Some(Decoder.Mask(bits + Decoder.Padded(present), p + MaskLen(|present|)))
    decreases |present|
  {
    hide Bit, MaskBytes, At;
    MaskHead(obj, p, present);
    var head, seven := Bitmask.Head(present), Decoder.SevenBits(obj[p]);
    assert seven == seq(7, i requires 0 <= i => i < |head| && head[i]);
    if |present| > 7 {
      IdMaskReads(obj, p + 1, present[7..], bits + seven);
      assert Decoder.Padded(present) == seven + Decoder.Padded(present[7..]);
      assert bits + seven + Decoder.Padded(present[7..]) == bits + Decoder.Padded(present);
    } else {
      assert Decoder.Padded(present) == seven;
    }
  }

  lemma {:induction false} PaddedRank(present: seq<bool>, s: nat)
    requires s < |present|
    ensures s < |Decoder.Padded(present)| && Decoder.Padded(present)[s] == present[s]
    ensures Count(Decoder.Padded(present)[..s]) == Count(present[..s])
  {
    Decoder.MaskCovers(|present|);
    assert Decoder.Padded(present)[..s] == present[..s];
  }

  lemma {:induction false} IntFound(obj: Bytes, mask: Decoder.Mask, slot: nat, rel: nat, v: Int64)
    requires slot < |mask.bits| && mask.bits[slot] && ReadU(obj, mask.end + 2 * Count(mask.bits[..slot]), 2) == Some(rel)
    requires At(obj, rel, Le64(v))
    ensures IntAtSlot(obj, mask, slot) == Some(v)
  {
    hide ReadU, Count, ReadI64, Le64;
    IntReads(obj, rel, v);
  }

  lemma {:induction false} SlotEntry(f: SpanFields, k: nat)
    requires k < 3
    ensures var obj, bits := SpanObject(f), Decoder.Padded(Present(SpanWrites(f), 10));
            k < |bits| && bits[k] && ReadU(obj, 10 + 2 * Count(bits[..k]), 2) == Some(32 + 8 * k)
  {
    hide Object, SpanWrites, Lookup, IndexOf, Rel, TableBytes, MaskBytes, At, Count, ReadU, Decoder.Padded;
    var obj, w := SpanObject(f), SpanWrites(f);
    WholeAt(obj);
    TenKeys();
    SpanLookup(f, k);
    ObjectParts(obj, 0, w, 10);
    EntryOf(obj, 10, w, 10, k);
    PaddedRank(Present(w, 10), k);
    FirstValues(f, k);
    ModUnique(32 + 8 * k, U16, 0, 32 + 8 * k);
  }

  /** Each of the first three integers is read back at its slot. */
  lemma {:induction false} SlotReads(f: SpanFields, k: nat)
    requires k < 3
    ensures var obj, mask := SpanObject(f), Decoder.Mask(Decoder.Padded(Present(SpanWrites(f), 10)), 10);
            var v := if k == 0 then f.traceHi else if k == 1 then f.traceLo else f.spanId;
            IntAtSlot(obj, mask, k) == Some(v)
  {
    hide Object, SpanWrites, Rel, At, Count, ReadU, Decoder.Padded, IntAtSlot, Present;
    var obj, w := SpanObject(f), SpanWrites(f);
    WholeAt(obj);
    SlotEntry(f, k);
    FirstValues(f, k);
    ValueAt(obj, 0, w, 10, k);
    FirstCells(f, k);
    IntFound(obj, Decoder.Mask(Decoder.Padded(Present(w, 10)), 10), k, 32 + 8 * k,
             if k == 0 then f.traceHi else if k == 1 then f.traceLo else f.spanId);
  }

  lemma {:induction false} WholeAt(b: Bytes)
    ensures At(b, 0, b)
  {
  }

  lemma {:induction false} FirstCells(f: SpanFields, k: nat)
    requires k < 3
    ensures SpanWrites(f)[k].cell == Columns.I64(if k == 0 then f.traceHi else if k == 1 then f.traceLo else f.spanId)
  {
  }

  lemma {:induction false} IntReads(data: Bytes, off: nat, v: Int64)
    requires At(data, off, Le64(v))
    ensures off + 8 <= |data| && ReadI64(data[off..off + 8]) == v
  {
    I64RoundTrip(v);
  }

  /** Recovery reads every span's identity back from its logged object. */
  lemma {:induction false} IdentityReads(f: SpanFields)
    ensures ExtractIdentity(SpanObject(f)) == Some(IdentityOf(f))
  {
    hide Object, SpanWrites, TableBytes, MaskBytes, IntAtSlot, At, IdMask, Decoder.Padded, TraceId;
    var obj, w := SpanObject(f), SpanWrites(f);
    WholeAt(obj);
    TenKeys();
    ObjectParts(obj, 0, w, 10);
    IdMaskReads(obj, 8, Present(w, 10), []);
    assert [] + Decoder.Padded(Present(w, 10)) == Decoder.Padded(Present(w, 10));
    MaskFits(f);
    SlotReads(f, 0);
    SlotReads(f, 1);
    SlotReads(f, 2);
  }

  lemma {:induction false} MaskFits(f: SpanFields)
    ensures 10 + 2 * Count(Decoder.Padded(Present(SpanWrites(f), 10))) <= |SpanObject(f)|
  {
    hide Present, SpanWrites, Values, Le, MaskBytes;
    var w := SpanWrites(f);
    TenKeys();
    Decoder.PaddedCount(Present(w, 10), 0);
    assert Decoder.Padded(Present(w, 10))[0..] == Decoder.Padded(Present(w, 10));
    HeadLen(w, 10, ObjectLen(w, 10));
  }
}
