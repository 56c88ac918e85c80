/**
 Decoding a logged span and encoding it again. The decoder tells a number from a nested object by its first
 four bytes, so a span survives exactly when none of its numbers starts like one.
 */
module SpanCodec {
  import opened Bytes
  import opened CompactSchema
  import opened RowObject
  import opened Span
  import opened Decoder
  import Columns
  import CompactCells

  // ── Spans from fields ─────────────────────────────────────────────────────

  /** `decode_span_object`: the fields by name; a parent of zero is no parent. */
  function SpanOfFields(fields: seq<Field>): Option<SpanFields>
  {
    var keys := SpanKeys();
    var hi :- GetInt(fields, keys[0]);
    var lo :- GetInt(fields, keys[1]);
    var span :- GetInt(fields, keys[2]);
    Some(SpanFields(hi, lo, span, ParentOf(fields, keys[3]), GetText(fields, keys[4]), GetText(fields, keys[5]),
                    GetInt(fields, keys[6]).UnwrapOr(0), GetInt(fields, keys[7]).UnwrapOr(0), GetInt(fields, keys[8]).UnwrapOr(0),
                    GetBlob(fields, keys[9])))
  }

  function ParentOf(fields: seq<Field>, key: Bytes): Option<Int64>
  {
    if HasNull(fields, key) then None
    else
      var p :- GetInt(fields, key);
      if p == 0 then None else Some(p)
  }

  function DecodeSpan(data: Bytes, off: nat, sigils: Bytes): Option<SpanFields>
  {
    var fields :- DecodeObject(data, off, SpanKeys(), sigils).ToOption();
    SpanOfFields(fields)
  }

  /** A span as it comes back: a parent of zero and no parent are one. */
  function Norm(f: SpanFields): SpanFields
  {
    if f.parent == Some(0) then f.(parent := None) else f
  }

  // ── Which spans survive ───────────────────────────────────────────────────

  predicate CleanInt(v: Int64) { Clean(Wrap(v, 8)) }

  /** No number of the span starts like a nested object or list. */
  predicate CleanSpan(f: SpanFields)
  {
    && CleanInt(f.traceHi) && CleanInt(f.traceLo) && CleanInt(f.spanId) && (f.parent.Some? ==> CleanInt(f.parent.value))
    && CleanInt(f.start) && CleanInt(f.duration) && CleanInt(f.status)
  }

  /** Every value starts within the offset table's reach, and the payload is below 2^28 bytes. */
  ghost predicate SpanFits(f: SpanFields)
  {
    InReach(SpanWrites(f), 10) && (f.payload.Some? ==> |f.payload.value| < 0x1000_0000)
  }

  /** Sigils that decode the span's cells: as logged, or as a sealed file's header has them. */
  predicate SigilsFit(f: SpanFields, sigils: Bytes)
  {
    && |sigils| == 10 && sigils[..3] == SpanSigils()[..3] && sigils[4..9] == SpanSigils()[4..9]
    && (sigils[3] == SIGIL_INT || (sigils[3] == SIGIL_NULL && f.parent.None?))
    && (f.payload.Some? ==> sigils[9] == SIGIL_BINARY)
  }

  lemma {:induction false} RelStep(f: SpanFields, k: nat)
    requires k + 1 < |SpanWrites(f)|
    ensures Rel(SpanWrites(f), 10, k + 1) == Rel(SpanWrites(f), 10, k) + |ValueBytes(SpanWrites(f)[k].cell)|
  {
    hide SpanWrites;
    ValuesStep(SpanWrites(f), k);
  }

  lemma {:induction false} TextsAreShort(f: SpanFields)
    requires SpanFits(f)
    ensures |f.name| < U16 && |f.service| < U16
  {
    RelStep(f, 4);
    RelStep(f, 5);
  }

  /** The value of slot `s`, where it lies. */
  lemma {:induction false} SlotAt(data: Bytes, off: nat, f: SpanFields, sigils: Bytes, s: nat)
    requires At(data, off, SpanObject(f)) && SpanFits(f) && s < |SpanWrites(f)| && |sigils| == 10
    ensures Lookup(SpanWrites(f), s) == Some(SpanWrites(f)[s].cell)
    ensures var at := off + Rel(SpanWrites(f), 10, s);
            && At(data, at, ValueBytes(SpanWrites(f)[s].cell))
            && ValueOf(data, off, SpanWrites(f), 10, sigils, s) == DecodeValue(data, at, sigils[s])
  {
    hide Object, SpanWrites, Rel, At, DecodeValue, ValueBytes, Lookup, IndexOf;
    SpanLookup(f, s);
    ValueAt(data, off, SpanWrites(f), 10, s);
    ModUnique(Rel(SpanWrites(f), 10, s), U16, 0, Rel(SpanWrites(f), 10, s));
  }

  /** What each slot decodes to: its value, or, for a number, something else when it is not clean. */
  ghost predicate SlotDecodes(r: Result<Value>, f: SpanFields, sigils: Bytes, s: nat)
    requires s < |SpanWrites(f)| && s < |sigils|
  {
    match SpanWrites(f)[s].cell
    case I64(v) => if CleanInt(v) then r == Ok(Int(v)) else Mistaken(r)
    case Time(t) => if CleanInt(t) then r == Ok(Instant(t)) else Mistaken(r)
    case Null => r == Ok(if sigils[s] == SIGIL_INT then Int(0) else NullValue)
    case Str(t) => r == Ok(Text(t))
    case Binary(b) => r == Ok(Blob(b))
    case _ => false
  }

  lemma {:induction false} SlotValue(data: Bytes, off: nat, f: SpanFields, sigils: Bytes, s: nat)
    requires At(data, off, SpanObject(f)) && SpanFits(f) && SigilsFit(f, sigils) && s < |SpanWrites(f)|
    ensures Lookup(SpanWrites(f), s).Some?
    ensures SlotDecodes(ValueOf(data, off, SpanWrites(f), 10, sigils, s), f, sigils, s)
  {
    hide Object, Rel, At, DecodeValue, Lookup, IndexOf, Clean, CompactCells.StrCell, Le64, InReach, ValueOf, Wrap;
    SlotAt(data, off, f, sigils, s);
    SigilAtSlot(f, sigils, s);
    var at, cell := off + Rel(SpanWrites(f), 10, s), SpanWrites(f)[s].cell;
    match cell
    case I64(v) => IntDecodes(data, at, v, sigils[s]);
    case Time(t) => IntDecodes(data, at, t, sigils[s]);
    case Null => NullDecodes(data, at, sigils[s]);
    case Str(t) => TextsAreShort(f); TextDecodes(data, at, t);
    case Binary(b) => BlobDecodes(data, at, b);
  }

  lemma {:induction false} SigilAtSlot(f: SpanFields, sigils: Bytes, s: nat)
    requires SigilsFit(f, sigils) && s < |SpanWrites(f)|
    ensures var cell := SpanWrites(f)[s].cell;
            && (cell.I64? ==> sigils[s] == SIGIL_INT) && (cell.Time? ==> sigils[s] == SIGIL_TIME)
            && (cell.Str? ==> sigils[s] == SIGIL_STR) && (cell.Binary? ==> sigils[s] == SIGIL_BINARY)
            && (cell.Null? ==> sigils[s] == SIGIL_INT || sigils[s] == SIGIL_NULL)
            && (cell.I64? || cell.Time? || cell.Str? || cell.Binary? || cell.Null?)
  {
    var want := SpanSigils();
    if s < 3 { assert sigils[s] == sigils[..3][s] == want[..3][s]; }
    if 4 <= s < 9 { assert sigils[s] == sigils[4..9][s - 4] == want[4..9][s - 4]; }
  }

  lemma {:induction false} SpanInCaps(f: SpanFields)
    ensures InCaps(SpanWrites(f), 10)
  {
    hide SpanWrites;
    TenKeys();
    Bitmask.PresentAreFew(Present(SpanWrites(f), 10), 0);
  }

  /** The fields of a decoded span, slot by slot. */
  lemma {:induction false} FieldOf(data: Bytes, off: nat, f: SpanFields, sigils: Bytes, s: nat)
    requires At(data, off, SpanObject(f)) && SpanFits(f) && SigilsFit(f, sigils) && s < 10
    requires DecodeObject(data, off, SpanKeys(), sigils).Ok?
    ensures var fields, key := DecodeObject(data, off, SpanKeys(), sigils).value, SpanKeys()[s];
            if s < |SpanWrites(f)| then
              Lookup(SpanWrites(f), s).Some? &&
              var r := ValueOf(data, off, SpanWrites(f), 10, sigils, s);
              && r.Ok? && SlotDecodes(r, f, sigils, s)
              && GetInt(fields, key) == AsInt(r.value) && GetText(fields, key) == (if r.value.Text? then r.value.s else [])
              && GetBlob(fields, key) == (if r.value.Blob? then Some(r.value.raw) else None) && HasNull(fields, key) == r.value.NullValue?
            else GetBlob(fields, key).None?
  {
    hide InCaps, Object, At, Lookup, IndexOf, InReach, ValueOf, SpanWrites, SlotDecodes, WrittenFields, DecodeObject,
         GetInt, GetText, GetBlob, HasNull, SpanKeys, SigilsFit;
    KeysDistinct();
    SigilsLen(f, sigils);
    SpanInCaps(f);
    DecodesWritten(data, off, SpanWrites(f), SpanKeys(), sigils);
    LooksUp(data, off, SpanWrites(f), SpanKeys(), sigils, 0, s);
    SpanLookup(f, s);
    if s < |SpanWrites(f)| { SlotValue(data, off, f, sigils, s); }
  }

  lemma {:induction false} SigilsLen(f: SpanFields, sigils: Bytes)
    requires SigilsFit(f, sigils)
    ensures |sigils| == 10
  {
  }

  lemma {:induction false} CleanDecodes(data: Bytes, off: nat, f: SpanFields, sigils: Bytes)
    requires At(data, off, SpanObject(f)) && SpanFits(f) && SigilsFit(f, sigils) && CleanSpan(f)
    ensures DecodeObject(data, off, SpanKeys(), sigils).Ok?
  {
    hide InCaps, Object, At, Lookup, IndexOf, InReach, ValueOf, WrittenFields, DecodeObject, SpanKeys, SigilsFit,
         CleanInt;
    SigilsLen(f, sigils);
    SpanInCaps(f);
    DecodesWritten(data, off, SpanWrites(f), SpanKeys(), sigils);
    FieldsDecode(data, off, SpanWrites(f), SpanKeys(), sigils, 0);
    forall s | 0 <= s < 10 && Lookup(SpanWrites(f), s).Some?
      ensures ValueOf(data, off, SpanWrites(f), 10, sigils, s).Ok?
    {
      SpanLookup(f, s);
      SlotValue(data, off, f, sigils, s);
    }
  }

  /** A clean span decodes to itself, under the log's sigils or a sealed file's. */
  lemma {:induction false} SpanDecodes(data: Bytes, off: nat, f: SpanFields, sigils: Bytes)
    requires At(data, off, SpanObject(f)) && SpanFits(f) && SigilsFit(f, sigils) && CleanSpan(f)
    ensures DecodeSpan(data, off, sigils) == Some(Norm(f))
  {
    hide Object, At, Lookup, IndexOf, InReach, ValueOf, DecodeObject, SpanKeys, SigilsFit, CleanInt, GetInt, GetText,
         GetBlob, HasNull;
    CleanDecodes(data, off, f, sigils);
    FieldOf(data, off, f, sigils, 0); FieldOf(data, off, f, sigils, 1); FieldOf(data, off, f, sigils, 2);
    FieldOf(data, off, f, sigils, 3); FieldOf(data, off, f, sigils, 4); FieldOf(data, off, f, sigils, 5);
    FieldOf(data, off, f, sigils, 6); FieldOf(data, off, f, sigils, 7); FieldOf(data, off, f, sigils, 8);
    FieldOf(data, off, f, sigils, 9);
  }

  // ── Encoding again ────────────────────────────────────────────────────────

  lemma {:induction false} ValuesSame(a: seq<Write>, b: seq<Write>, k: nat)
    requires k <= |a| && k <= |b| && forall j :: 0 <= j < k ==> ValueBytes(a[j].cell) == ValueBytes(b[j].cell)
    ensures Values(a[..k]) == Values(b[..k])
  {
    hide ValueBytes;
    if k > 0 {
      ValuesSame(a, b, k - 1);
      ValuesStep(a, k - 1);
      ValuesStep(b, k - 1);
    } else {
      assert a[..0] == b[..0];
    }
  }

  /** Spans whose values have the same bytes are the same object. */
  lemma {:induction false} SameObject(f: SpanFields, g: SpanFields)
    requires |SpanWrites(f)| == |SpanWrites(g)|
    requires forall s :: 0 <= s < |SpanWrites(f)| ==> ValueBytes(SpanWrites(f)[s].cell) == ValueBytes(SpanWrites(g)[s].cell)
    ensures SpanObject(f) == SpanObject(g)
  {
    hide SpanWrites, ValueBytes, Values, Lookup, IndexOf, Le;
    var a, b := SpanWrites(f), SpanWrites(g);
    ValuesSame(a, b, |a|);
    assert a[..|a|] == a && b[..|b|] == b;
    forall s | 0 <= s < 10
      ensures Lookup(a, s).Some? == Lookup(b, s).Some?
      ensures Lookup(a, s).Some? ==> IndexOf(a, s) == IndexOf(b, s) && Rel(a, 10, IndexOf(a, s)) == Rel(b, 10, IndexOf(b, s))
    {
      SpanLookup(f, s);
      SpanLookup(g, s);
      if s < |a| { ValuesSame(a, b, s); }
    }
    assert Present(a, 10) == Present(b, 10);
    TablesSame(a, b);
  }

  lemma {:induction false} TablesSame(a: seq<Write>, b: seq<Write>)
    requires Present(a, 10) == Present(b, 10)
    requires forall s :: 0 <= s < 10 && Lookup(a, s).Some? ==>
               Lookup(b, s).Some? && Rel(a, 10, IndexOf(a, s)) == Rel(b, 10, IndexOf(b, s))
    ensures TableBytes(a, 10) == TableBytes(b, 10)
  {
    hide Lookup, IndexOf, Rel, Bitmask.PresentFrom;
    var slots := Bitmask.PresentFrom(Present(a, 10), 0);
    forall i | 0 <= i < |slots|
      ensures Table(a, 10, slots)[i] == Table(b, 10, slots)[i]
    {
      assert slots[i] in slots;
    }
    assert Table(a, 10, slots) == Table(b, 10, slots);
  }

  /** A span and its normal form are logged as the same bytes: a null parent is eight zero bytes. */
  lemma {:induction false} NormSameObject(f: SpanFields)
    ensures SpanObject(Norm(f)) == SpanObject(f)
    ensures SpanFits(f) ==> SpanFits(Norm(f))
    ensures CleanSpan(f) ==> CleanSpan(Norm(f))
  {
    hide Le64, CompactCells.StrCell, CleanInt;
    ZeroIsZeros();
    SameObject(f, Norm(f));
    if SpanFits(f) {
      var a, b := SpanWrites(f), SpanWrites(Norm(f));
      forall k | 0 <= k < |b|
        ensures Rel(b, 10, k) < U16
      {
        ValuesSame(a, b, k);
        assert Rel(a, 10, k) < U16;
      }
    }
  }

  lemma {:induction false} SameLengths(f: SpanFields, g: SpanFields, k: nat)
    requires f.name == g.name && f.service == g.service && k < 9
    ensures |ValueBytes(SpanWrites(f)[k].cell)| == |ValueBytes(SpanWrites(g)[k].cell)|
  {
    hide CompactCells.StrCell, Le64;
  }

  /** Where two spans have the same texts, their first nine values start at the same places. */
  lemma {:induction false} SameStarts(f: SpanFields, g: SpanFields, k: nat)
    requires f.name == g.name && f.service == g.service && k < 9
    ensures Rel(SpanWrites(f), 10, k) == Rel(SpanWrites(g), 10, k)
  {
    hide SpanWrites, ValueBytes, Values;
    if k > 0 {
      SameStarts(f, g, k - 1);
      SameLengths(f, g, k - 1);
      RelStep(f, k - 1);
      RelStep(g, k - 1);
    } else {
      assert SpanWrites(f)[..0] == SpanWrites(g)[..0];
    }
  }

  lemma {:induction false} DifferentObject(f: SpanFields, g: SpanFields, k: nat)
    requires f.name == g.name && f.service == g.service && k < 9
    requires ValueBytes(SpanWrites(f)[k].cell) != ValueBytes(SpanWrites(g)[k].cell)
    requires |ValueBytes(SpanWrites(f)[k].cell)| == |ValueBytes(SpanWrites(g)[k].cell)|
    ensures SpanObject(f) != SpanObject(g)
  {
    hide Object, SpanWrites, ValueBytes, Rel;
    SameStarts(f, g, k);
    WholeAt(SpanObject(f));
    WholeAt(SpanObject(g));
    ValueAt(SpanObject(f), 0, SpanWrites(f), 10, k);
    ValueAt(SpanObject(g), 0, SpanWrites(g), 10, k);
  }

  lemma {:induction false} UncleanIsNotZero(v: Int64)
    requires !CleanInt(v)
    ensures Le64(v) != Le64(0) && Le64(v) != Zeros(8) && v != 0
  {
    hide Le64;
    ZeroIsZeros();
    I64RoundTrip(v);
    I64RoundTrip(0);
  }

  /** What decoding makes of the texts, and of numbers that are not clean. */
  lemma {:induction false} UncleanReads(f: SpanFields, g: SpanFields)
    requires SpanFits(f) && DecodeSpan(SpanObject(f), 0, SpanSigils()) == Some(g)
    ensures g.name == f.name && g.service == f.service && CleanInt(f.traceHi) && CleanInt(f.traceLo) && CleanInt(f.spanId)
    ensures f.parent.Some? && !CleanInt(f.parent.value) ==> g.parent.None?
    ensures (!CleanInt(f.start) ==> g.start == 0) && (!CleanInt(f.duration) ==> g.duration == 0) && (!CleanInt(f.status) ==> g.status == 0)
  {
    hide Object, At, Lookup, IndexOf, InReach, ValueOf, DecodeObject, SpanKeys, CleanInt, GetInt, GetText, GetBlob,
         HasNull, SpanWrites;
    var obj, sigils := SpanObject(f), SpanSigils();
    WholeAt(obj);
    FieldOf(obj, 0, f, sigils, 0); FieldOf(obj, 0, f, sigils, 1); FieldOf(obj, 0, f, sigils, 2);
    FieldOf(obj, 0, f, sigils, 3); FieldOf(obj, 0, f, sigils, 4); FieldOf(obj, 0, f, sigils, 5);
    FieldOf(obj, 0, f, sigils, 6); FieldOf(obj, 0, f, sigils, 7); FieldOf(obj, 0, f, sigils, 8);
  }

  /** A number that is not clean is lost: the span is dropped, or comes back as other bytes. */
  lemma {:induction false} UncleanIsLost(f: SpanFields)
    requires SpanFits(f) && !CleanSpan(f)
    ensures var g := DecodeSpan(SpanObject(f), 0, SpanSigils());
            g.Some? ==> SpanObject(g.value) != SpanObject(f)
  {
    hide SpanObject, DecodeSpan, CleanInt, Le64, SpanFits, CompactCells.StrCell;
    var decoded := DecodeSpan(SpanObject(f), 0, SpanSigils());
    if decoded.Some? {
      var g := decoded.value;
      UncleanReads(f, g);
      if f.parent.Some? && !CleanInt(f.parent.value) {
        UncleanIsNotZero(f.parent.value);
        DifferentObject(f, g, 3);
      } else if !CleanInt(f.start) {
        UncleanIsNotZero(f.start);
        DifferentObject(f, g, 6);
      } else if !CleanInt(f.duration) {
        UncleanIsNotZero(f.duration);
        DifferentObject(f, g, 7);
      } else {
        UncleanIsNotZero(f.status);
        DifferentObject(f, g, 8);
      }
    }
  }

  /** Decoding a logged span and encoding it again gives the same bytes exactly when the span is clean. */
  lemma {:induction false} SurvivesIff(f: SpanFields)
    requires SpanFits(f)
    ensures var g := DecodeSpan(SpanObject(f), 0, SpanSigils());
            (g.Some? && SpanObject(g.value) == SpanObject(f)) <==> CleanSpan(f)
    ensures CleanSpan(f) ==> DecodeSpan(SpanObject(f), 0, SpanSigils()) == Some(Norm(f))
  {
    hide Object, InReach, CleanInt, SpanWrites;
    WholeAt(SpanObject(f));
    if CleanSpan(f) {
      SpanDecodes(SpanObject(f), 0, f, SpanSigils());
      NormSameObject(f);
    } else {
      UncleanIsLost(f);
    }
  }
}
