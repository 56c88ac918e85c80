/**
 The schema-driven decoder of row objects, as sealing and segment queries use it. It peeks at the first four
 bytes of every value for the magic of a nested object or list before it looks at the column's sigil.
 */
module Decoder {
  import opened Bytes
  import opened Bitmask
  import opened CompactSchema
  import opened RowObject
  import Columns
  import CompactCells
  import CompactRecord

  const MAGIC_LIST: nat := 0x4E59_584C
  const MAX_LINK_DEPTH: nat := 16

  datatype Value = Int(i: Int64) | Float(bits: Bits64) | Flag(b: bool) | Text(s: Bytes) | Instant(t: Int64)
                 | Blob(raw: Bytes) | NullValue | List(items: seq<Value>) | Raw(bytes: Bytes)

  datatype Field = Field(key: Bytes, value: Value)

  // ── Values ────────────────────────────────────────────────────────────────

  function ReadInt(data: Bytes, off: nat): Int64
    requires off + 8 <= |data|
  {
    ReadI64(data[off..off + 8])
  }

  function ListItems(data: Bytes, off: nat, sigil: Byte, n: nat): seq<Value>
    requires off + 8 * n <= |data|
    decreases n
  {
    if n == 0 then []
    else
      Pow256Values();
      var item := if sigil == SIGIL_INT then Int(ReadInt(data, off))
                  else if sigil == SIGIL_FLOAT then Float(ReadLe(data[off..off + 8]))
                  else Raw(data[off..off + 8]);
      [item] + ListItems(data, off + 8, sigil, n - 1)
  }

  /** `decode_list` */
  function DecodeList(data: Bytes, off: nat): (r: Result<Value>)
    ensures r.Ok? ==> r.value.List?
  {
    if off + 16 > |data| then Err(OutOfBounds)
    else if ReadLe(data[off..off + 4]) != MAGIC_LIST then Err(BadMagic)
    else
      var n := ReadLe(data[off + 9..off + 13]);
      if n > (|data| - off - 16) / 8 then Err(OutOfBounds)
      else Ok(List(ListItems(data, off + 16, data[off + 8], n)))
  }

  /** A chain of links, which only ever ends in an error: every hop is decoded as another link. */
  function FollowLink(data: Bytes, off: nat, depth: nat): Error
    decreases MAX_LINK_DEPTH - depth
  {
    if off >= |data| then OutOfBounds
    else if depth >= MAX_LINK_DEPTH then CircularLink
    else if off + 8 > |data| then OutOfBounds
    else if ReadLe(data[off..off + 8]) == off then CircularLink
    else FollowLink(data, ReadLe(data[off..off + 8]), depth + 1)
  }

  predicate HasMagic(data: Bytes, off: nat, magic: nat)
  {
    off + 4 <= |data| && ReadLe(data[off..off + 4]) == magic
  }

  /** `decode_value_at` */
  function DecodeValue(data: Bytes, off: nat, sigil: Byte): Result<Value>
  {
    if off >= |data| then Err(OutOfBounds)
    else if sigil == SIGIL_LINK then Err(FollowLink(data, off, 0))
    else if HasMagic(data, off, CompactRecord.MAGIC_OBJ) then
      Ok(Raw(data[off..if off + 8 <= |data| then off + 8 else |data|]))
    else if HasMagic(data, off, MAGIC_LIST) then DecodeList(data, off)
    else if sigil == SIGIL_NULL then Ok(NullValue)
    else DecodeTyped(data, off, sigil)
  }

  /** The value under its sigil, once it is known not to be a nested object or list. */
  function DecodeTyped(data: Bytes, off: nat, sigil: Byte): Result<Value>
    requires off < |data|
  {
    Pow256Values();
    if sigil == SIGIL_BOOL then Ok(Flag(data[off] != 0))
    else if sigil == SIGIL_STR then
      if off + 4 > |data| then Err(OutOfBounds)
      else
        var len := ReadLe(data[off..off + 4]);
        if len > 0x10_0000 || off + 4 + len > |data| then
          Ok(if off + 8 <= |data| then Int(ReadInt(data, off)) else Raw(data[off..]))
        else Ok(Text(data[off + 4..off + 4 + len]))
    else if sigil == SIGIL_BINARY then
      if off + 4 > |data| then Err(OutOfBounds)
      else
        var len := ReadLe(data[off..off + 4]);
        if off + 4 + len > |data| then Err(OutOfBounds) else Ok(Blob(data[off + 4..off + 4 + len]))
    else if sigil == SIGIL_INT || sigil == SIGIL_TIME || sigil == SIGIL_FLOAT then
      if off + 8 > |data| then Err(OutOfBounds)
      else if sigil == SIGIL_INT then Ok(Int(ReadInt(data, off)))
      else if sigil == SIGIL_TIME then Ok(Instant(ReadInt(data, off)))
      else Ok(Float(ReadLe(data[off..off + 8])))
    else Ok(if off + 8 <= |data| then Int(ReadInt(data, off)) else Raw(data[off..]))
  }

  // ── Objects ───────────────────────────────────────────────────────────────

  datatype Mask = Mask(bits: seq<bool>, end: nat)

  function SevenBits(b: Byte): (bits: seq<bool>)
    ensures |bits| == 7
  {
    seq(7, j requires 0 <= j => Bit(b, j))
  }

  /** The bitmask, of at most 74 bytes. */
  function ReadMask(data: Bytes, p: nat, bits: seq<bool>): (r: Result<Mask>)
    decreases |data| - p
  {
    if p >= |data| || |bits| >= 512 then Err(OutOfBounds)
    else if More(data[p]) then ReadMask(data, p + 1, bits + SevenBits(data[p]))
    else Ok(Mask(bits + SevenBits(data[p]), p + 1))
  }

  function ReadOffsets(data: Bytes, p: nat, obj: nat, n: nat): (r: Result<seq<nat>>)
    ensures r.Ok? ==> |r.value| == n
    decreases n
  {
    if n == 0 then Ok([])
    else if p + 2 > |data| then Err(OutOfBounds)
    else
      var rest :- ReadOffsets(data, p + 2, obj, n - 1);
      Ok([obj + ReadLe(data[p..p + 2])] + rest)
  }

  function Decimal(n: nat): Bytes
  {
    if n < 10 then [48 + n] else Decimal(n / 10) + [48 + n % 10]
  }

  /** A bit past the schema gets a made-up name. */
  function KeyName(keys: seq<Bytes>, bit: nat): Bytes
  {
    if bit < |keys| then keys[bit] else [107, 101, 121, 95] + Decimal(bit)
  }

  function SigilOfBit(sigils: Bytes, bit: nat): Byte { if bit < |sigils| then sigils[bit] else 0 }

  /** The fields of the set bits from `i` on, whose offsets are listed in order. */
  function DecodeFields(data: Bytes, keys: seq<Bytes>, sigils: Bytes, bits: seq<bool>, offsets: seq<nat>, i: nat)
      : (r: Result<seq<Field>>)
    requires i <= |bits| && |offsets| == Count(bits[i..])
    decreases |bits| - i
  {
    if i == |bits| then Ok([])
    else
      CountHead(bits, i);
      if bits[i] then
        var value :- DecodeValue(data, offsets[0], SigilOfBit(sigils, i));
        var rest :- DecodeFields(data, keys, sigils, bits, offsets[1..], i + 1);
        Ok([Field(KeyName(keys, i), value)] + rest)
      else DecodeFields(data, keys, sigils, bits, offsets, i + 1)
  }

  lemma {:induction false} CountHead(bits: seq<bool>, i: nat)
    requires i < |bits|
    ensures Count(bits[i..]) == (if bits[i] then 1 else 0) + Count(bits[i + 1..])
  {
    assert bits[i..] == [bits[i]] + bits[i + 1..];
    CountConcat([bits[i]], bits[i + 1..]);
    assert [bits[i]][..0] == [];
    assert Count([bits[i]]) == (if bits[i] then 1 else 0) + Count([]);
  }

  /** `decode_object` */
  function DecodeObject(data: Bytes, obj: nat, keys: seq<Bytes>, sigils: Bytes): Result<seq<Field>>
  {
    if obj + 8 > |data| then Err(OutOfBounds)
    else if ReadLe(data[obj..obj + 4]) != CompactRecord.MAGIC_OBJ then Err(BadMagic)
    else
      var mask :- ReadMask(data, obj + 8, []);
      if Count(mask.bits) > 512 then Err(OutOfBounds)
      else
        var offsets :- ReadOffsets(data, mask.end, obj, Count(mask.bits));
        assert mask.bits[0..] == mask.bits;
        DecodeFields(data, keys, sigils, mask.bits, offsets, 0)
  }

  method DecodeRecordAt(data: Bytes, obj: nat, keys: seq<Bytes>, sigils: Bytes) returns (r: Result<seq<Field>>)
    ensures r == DecodeObject(data, obj, keys, sigils)
  {
    hide ReadMask, ReadOffsets, DecodeFields, ReadLe, Count;
    if obj + 8 > |data| { return Err(OutOfBounds); }
    if ReadLe(data[obj..obj + 4]) != CompactRecord.MAGIC_OBJ { return Err(BadMagic); }
    var mask := MaskLoop(data, obj + 8);
    if mask.Err? { return Err(mask.error); }
    var count := CountLoop(mask.value.bits);
    if count > 512 { return Err(OutOfBounds); }
    var offsets := OffsetLoop(data, mask.value.end, obj, count);
    if offsets.Err? { return Err(offsets.error); }
    assert mask.value.bits[0..] == mask.value.bits;
    r := FieldLoop(data, keys, sigils, mask.value.bits, offsets.value);
  }

  method CountLoop(bits: seq<bool>) returns (n: nat)
    ensures n == Count(bits)
  {
    n := 0;
    for i := 0 to |bits|
      invariant n == Count(bits[..i])
    {
      assert bits[..i + 1][..i] == bits[..i];
      if bits[i] { n := n + 1; }
    }
    assert bits[..|bits|] == bits;
  }

  method MaskLoop(data: Bytes, start: nat) returns (r: Result<Mask>)
    ensures r == ReadMask(data, start, [])
  {
    hide Bit;
    var bits: seq<bool> := [];
    var p := start;
    while true
      invariant start <= p && ReadMask(data, start, []) == ReadMask(data, p, bits)
      decreases |data| - p
    {
      if p >= |data| { return Err(OutOfBounds); }
      if |bits| >= 512 { return Err(OutOfBounds); }
      var byte := data[p];
      bits := bits + SevenBits(byte);
      if !More(byte) { return Ok(Mask(bits, p + 1)); }
      p := p + 1;
    }
  }

  method OffsetLoop(data: Bytes, start: nat, obj: nat, n: nat) returns (r: Result<seq<nat>>)
    ensures r == ReadOffsets(data, start, obj, n)
  {
    hide ReadLe;
    var offsets: seq<nat> := [];
    AppendEnds(ReadOffsets(data, start, obj, n), offsets);
    for k := 0 to n
      invariant ReadOffsets(data, start, obj, n) == Appended(offsets, ReadOffsets(data, start + 2 * k, obj, n - k))
    {
      var p := start + 2 * k;
      if p + 2 > |data| { return Err(OutOfBounds); }
      AppendStep(offsets, obj + ReadLe(data[p..p + 2]), ReadOffsets(data, p + 2, obj, n - k - 1));
      offsets := offsets + [obj + ReadLe(data[p..p + 2])];
    }
    AppendEnds(Ok(offsets), offsets);
    r := Ok(offsets);
  }

  method FieldLoop(data: Bytes, keys: seq<Bytes>, sigils: Bytes, bits: seq<bool>, offsets: seq<nat>)
      returns (r: Result<seq<Field>>)
    requires |offsets| == Count(bits[0..])
    ensures r == DecodeFields(data, keys, sigils, bits, offsets, 0)
  {
    hide DecodeValue, KeyName, SigilOfBit, Count;
    var fields: seq<Field> := [];
    var k := 0;
    assert offsets[0..] == offsets;
    AppendEnds(DecodeFields(data, keys, sigils, bits, offsets, 0), fields);
    for i := 0 to |bits|
      invariant k <= |offsets| && |offsets[k..]| == Count(bits[i..])
      invariant DecodeFields(data, keys, sigils, bits, offsets, 0) ==
                Appended(fields, DecodeFields(data, keys, sigils, bits, offsets[k..], i))
    {
      CountHead(bits, i);
      if bits[i] {
        assert offsets[k..][1..] == offsets[k + 1..];
        var value := DecodeValue(data, offsets[k], SigilOfBit(sigils, i));
        if value.Err? { return Err(value.error); }
        AppendStep(fields, Field(KeyName(keys, i), value.value), DecodeFields(data, keys, sigils, bits, offsets[k + 1..], i + 1));
        fields := fields + [Field(KeyName(keys, i), value.value)];
        k := k + 1;
      }
    }
    AppendEnds(Ok(fields), fields);
    r := Ok(fields);
  }

  ghost function Appended<T>(front: seq<T>, rest: Result<seq<T>>): Result<seq<T>>
  {
    if rest.Ok? then Ok(front + rest.value) else rest
  }

  lemma {:induction false} AppendEnds<T>(all: Result<seq<T>>, front: seq<T>)
    ensures Appended([], all) == all && Appended(front, Ok([])) == Ok(front)
  {
    assert front + [] == front;
    assert all.Ok? ==> [] + all.value == all.value;
  }

  lemma {:induction false} AppendStep<T>(front: seq<T>, x: T, rest: Result<seq<T>>)
    ensures rest.Ok? ==> Appended(front, Ok([x] + rest.value)) == Appended(front + [x], rest)
  {
    assert rest.Ok? ==> front + ([x] + rest.value) == front + [x] + rest.value;
  }

  // ── Decoding an object that the row writer closed ─────────────────────────

  /** The present slots, with the mask's padding as absent slots. */
  function Padded(present: seq<bool>): (bits: seq<bool>)
    ensures |bits| == 7 * MaskLen(|present|)
  {
    seq(7 * MaskLen(|present|), i requires 0 <= i => i < |present| && present[i])
  }

  lemma {:induction false} MaskReads(data: Bytes, p: nat, present: seq<bool>, bits: seq<bool>)
    requires At(data, p, MaskBytes(present)) && |bits| + 7 * (MaskLen(|present|) - 1) < 512
    ensures ReadMask(data, p, bits) == Ok(Mask(bits + Padded(present), p + MaskLen(|present|)))
    decreases |present|
  {
    hide Bit, MaskBytes, At;
    MaskHead(data, p, present);
    var head := Bitmask.Head(present);
    assert SevenBits(data[p]) == seq(7, i requires 0 <= i => i < |head| && head[i]);
    if |present| > 7 {
      MaskReads(data, p + 1, present[7..], bits + SevenBits(data[p]));
      assert Padded(present) == SevenBits(data[p]) + Padded(present[7..]);
      assert bits + SevenBits(data[p]) + Padded(present[7..]) == bits + Padded(present);
    } else {
      assert Padded(present) == SevenBits(data[p]);
    }
  }

  lemma {:induction false} OffsetsRead(data: Bytes, p: nat, obj: nat, rels: seq<nat>)
    requires At(data, p, Fields(rels, 2))
    ensures ReadOffsets(data, p, obj, |rels|).Ok?
    ensures forall k :: 0 <= k < |rels| ==> ReadOffsets(data, p, obj, |rels|).value[k] == obj + rels[k] % U16
    decreases |rels|
  {
    hide Le, ReadLe, At;
    if |rels| > 0 {
      AtConcat(data, p, Le(rels[0], 2), Fields(rels[1..], 2));
      Pow256Values();
      AtLe(data, p, rels[0], 2);
      OffsetsRead(data, p + 2, obj, rels[1..]);
    }
  }

  /** What the decoder makes of the value of slot `s`. */
  function ValueOf(data: Bytes, obj: nat, writes: seq<Write>, n: nat, sigils: Bytes, s: nat): Result<Value>
    requires Lookup(writes, s).Some?
  {
    DecodeValue(data, obj + Rel(writes, n, IndexOf(writes, s)) % U16, SigilOfBit(sigils, s))
  }

  /** The fields of the written slots from `i` on, in slot order, or the first failure. */
  function WrittenFields(data: Bytes, obj: nat, writes: seq<Write>, keys: seq<Bytes>, sigils: Bytes, i: nat)
      : (r: Result<seq<Field>>)
    requires i <= |keys|
    decreases |keys| - i
  {
    if i == |keys| then Ok([])
    else if Lookup(writes, i).Some? then
      var value :- ValueOf(data, obj, writes, |keys|, sigils, i);
      var rest :- WrittenFields(data, obj, writes, keys, sigils, i + 1);
      Ok([Field(keys[i], value)] + rest)
    else WrittenFields(data, obj, writes, keys, sigils, i + 1)
  }

  lemma {:induction false} NoFieldsLeft(data: Bytes, keys: seq<Bytes>, sigils: Bytes, present: seq<bool>, i: nat)
    requires |present| <= i <= 7 * MaskLen(|present|)
    ensures Count(Padded(present)[i..]) == 0
    ensures DecodeFields(data, keys, sigils, Padded(present), [], i) == Ok([])
    decreases 7 * MaskLen(|present|) - i
  {
    if i < 7 * MaskLen(|present|) {
      CountHead(Padded(present), i);
      NoFieldsLeft(data, keys, sigils, present, i + 1);
    } else {
      assert Padded(present)[i..] == [];
    }
  }

  lemma {:induction false} PaddedCount(present: seq<bool>, i: nat)
    requires i <= |present| <= 7 * MaskLen(|present|)
    ensures Count(Padded(present)[i..]) == |PresentFrom(present, i)|
    decreases |present| - i
  {
    if i < |present| {
      CountHead(Padded(present), i);
      PaddedCount(present, i + 1);
    } else {
      NoFieldsLeft([], [], [], present, i);
    }
  }

  lemma {:induction false} MaskCovers(n: nat)
    ensures n <= 7 * MaskLen(n)
  {
    MaskLenIs(n);
  }

  /** Walking the bits with their offsets gives the written fields. */
  lemma {:induction false} FieldsAreWritten(data: Bytes, obj: nat, writes: seq<Write>, keys: seq<Bytes>,
      sigils: Bytes, offsets: seq<nat>, i: nat)
    requires i <= |keys| && |sigils| == |keys|
    requires var slots := PresentFrom(Present(writes, |keys|), i);
             |offsets| == |slots| &&
             forall k :: 0 <= k < |slots| ==> Lookup(writes, slots[k]).Some? && offsets[k] == obj + Rel(writes, |keys|, IndexOf(writes, slots[k])) % U16
    ensures |keys| <= 7 * MaskLen(|keys|) && |offsets| == Count(Padded(Present(writes, |keys|))[i..])
    ensures DecodeFields(data, keys, sigils, Padded(Present(writes, |keys|)), offsets, i) == WrittenFields(data, obj, writes, keys, sigils, i)
    decreases |keys| - i
  {
    hide DecodeValue, Rel, Lookup, IndexOf, MaskLen, Count;
    var n, present := |keys|, Present(writes, |keys|);
    MaskCovers(n);
    PaddedCount(present, i);
    if i < n {
      CountHead(Padded(present), i);
      var slots := PresentFrom(present, i);
      if present[i] {
        assert slots[0] == i && slots[1..] == PresentFrom(present, i + 1);
        forall k | 0 <= k < |slots[1..]|
          ensures Lookup(writes, slots[1..][k]).Some? && offsets[1..][k] == obj + Rel(writes, n, IndexOf(writes, slots[1..][k])) % U16
        {
          assert slots[1..][k] == slots[k + 1];
        }
        FieldsAreWritten(data, obj, writes, keys, sigils, offsets[1..], i + 1);
      } else {
        FieldsAreWritten(data, obj, writes, keys, sigils, offsets, i + 1);
      }
    } else {
      NoFieldsLeft(data, keys, sigils, present, i);
    }
  }

  /** A mask whose last byte is past the cap is refused. */
  lemma {:induction false} MaskTooLong(data: Bytes, p: nat, present: seq<bool>, bits: seq<bool>)
    requires At(data, p, MaskBytes(present)) && |bits| + 7 * (MaskLen(|present|) - 1) >= 512
    ensures ReadMask(data, p, bits) == Err(OutOfBounds)
    decreases |present|
  {
    hide Bit, MaskBytes, At;
    if |bits| < 512 {
      MaskHead(data, p, present);
      MaskTooLong(data, p + 1, present[7..], bits + SevenBits(data[p]));
    }
  }

  /** The decoder's caps: the mask's last byte is reached below 512 bits, and at most 512 slots are present. */
  predicate InCaps(writes: seq<Write>, n: nat)
  {
    7 * (MaskLen(n) - 1) < 512 && |PresentFrom(Present(writes, n), 0)| <= 512
  }

  /** Decoding a written object gives the fields of its writes, in slot order, exactly when it is in the caps. */
  lemma {:induction false} DecodesWritten(data: Bytes, obj: nat, writes: seq<Write>, keys: seq<Bytes>, sigils: Bytes)
    requires At(data, obj, Object(writes, |keys|)) && |sigils| == |keys|
    ensures DecodeObject(data, obj, keys, sigils) ==
            if InCaps(writes, |keys|) then WrittenFields(data, obj, writes, keys, sigils, 0) else Err(OutOfBounds)
  {
    hide Object, MaskBytes, ReadMask, ReadOffsets, DecodeFields, WrittenFields, Fields, ReadLe, Le, Rel, Lookup,
         IndexOf, At, Values, PresentFrom, Count, ObjectLen, MaskLen, Padded;
    var n, present := |keys|, Present(writes, |keys|);
    ObjectStarts(data, obj, writes, n);
    ObjectParts(data, obj, writes, n);
    if 7 * (MaskLen(n) - 1) < 512 {
      MaskReads(data, obj + 8, present, []);
      assert [] + Padded(present) == Padded(present) && Padded(present)[0..] == Padded(present);
      MaskCovers(n);
      PaddedCount(present, 0);
      if |PresentFrom(present, 0)| <= 512 { OffsetsAndFields(data, obj, writes, keys, sigils); }
    } else {
      MaskTooLong(data, obj + 8, present, []);
    }
  }

  /** The offsets of a written table, and the fields that they lead to. */
  lemma {:induction false} OffsetsAndFields(data: Bytes, obj: nat, writes: seq<Write>, keys: seq<Bytes>, sigils: Bytes)
    requires At(data, obj, Object(writes, |keys|)) && |sigils| == |keys|
    ensures var n, bits := |keys|, Padded(Present(writes, |keys|));
            var offsets := ReadOffsets(data, obj + 8 + MaskLen(n), obj, Count(bits));
            && offsets.Ok? && bits[0..] == bits && DecodeFields(data, keys, sigils, bits, offsets.value, 0) == WrittenFields(data, obj, writes, keys, sigils, 0)
  {
    hide Object, MaskBytes, ReadOffsets, DecodeFields, WrittenFields, Fields, Le, Rel, Lookup, IndexOf, At, Values,
         PresentFrom, Count, ObjectLen, MaskLen;
    var n, present := |keys|, Present(writes, |keys|);
    var slots := PresentFrom(present, 0);
    ObjectParts(data, obj, writes, n);
    MaskCovers(n);
    PaddedCount(present, 0);
    assert Padded(present)[0..] == Padded(present);
    HeadLen(writes, n, 0);
    OffsetsRead(data, obj + 8 + MaskLen(n), obj, Table(writes, n, slots));
    assert forall k :: 0 <= k < |slots| ==> slots[k] in slots;
    FieldsAreWritten(data, obj, writes, keys, sigils, ReadOffsets(data, obj + 8 + MaskLen(n), obj, |slots|).value, 0);
  }

  lemma {:induction false} ObjectStarts(data: Bytes, obj: nat, writes: seq<Write>, n: nat)
    requires At(data, obj, Object(writes, n))
    ensures obj + 8 <= |data| && ReadLe(data[obj..obj + 4]) == CompactRecord.MAGIC_OBJ
  {
    hide Object, MaskBytes, TableBytes, Values;
    ObjectParts(data, obj, writes, n);
    Pow256Values();
    AtLe(data, obj, CompactRecord.MAGIC_OBJ, 4);
  }

  // ── What a written value decodes to ───────────────────────────────────────

  /** The low 32 bits are not the magic that starts a nested object or list. */
  predicate Clean(low: nat)
  {
    low % U32 != CompactRecord.MAGIC_OBJ && low % U32 != MAGIC_LIST
  }

  /** The value is decoded as an object, as a list, or not at all. */
  predicate Mistaken(r: Result<Value>) { r.Err? || r.value.Raw? || r.value.List? }

  lemma {:induction false} LowBytes(v: nat)
    ensures Le(v, 8)[..4] == Le(v, 4)
  {
    assert Le(v, 8) == [v % 256] + Le(v / 256, 7);
    assert Le(v / 256, 7) == [v / 256 % 256] + Le(v / 256 / 256, 6);
    assert Le(v / 256 / 256, 6) == [v / 256 / 256 % 256] + Le(v / 256 / 256 / 256, 5);
    assert Le(v / 256 / 256 / 256, 5) == [v / 256 / 256 / 256 % 256] + Le(v / 256 / 256 / 256 / 256, 4);
    assert Le(v, 4) == [v % 256] + Le(v / 256, 3);
    assert Le(v / 256, 3) == [v / 256 % 256] + Le(v / 256 / 256, 2);
    assert Le(v / 256 / 256, 2) == [v / 256 / 256 % 256] + Le(v / 256 / 256 / 256, 1);
    assert Le(v / 256 / 256 / 256, 1) == [v / 256 / 256 / 256 % 256] + Le(v / 256 / 256 / 256 / 256, 0);
  }

  lemma {:induction false} LowReads(data: Bytes, off: nat, v: nat)
    requires At(data, off, Le(v, 8))
    ensures off + 8 <= |data| && ReadLe(data[off..off + 4]) == v % U32
  {
    LowBytes(v);
    AtSlice(data, off, Le(v, 8), 0, 4);
    assert Le(v, 8)[0..4] == Le(v, 4);
    Pow256Values();
    AtLe(data, off, v, 4);
  }

  /** An integer or time decodes to itself exactly when its low 32 bits are clean. */
  lemma {:induction false} IntDecodes(data: Bytes, off: nat, v: Int64, sigil: Byte)
    requires At(data, off, Le64(v)) && (sigil == SIGIL_INT || sigil == SIGIL_TIME)
    ensures Clean(Wrap(v, 8)) ==> DecodeValue(data, off, sigil) == Ok(if sigil == SIGIL_INT then Int(v) else Instant(v))
    ensures !Clean(Wrap(v, 8)) ==> Mistaken(DecodeValue(data, off, sigil))
  {
    hide Le, ReadLe, ReadI64, Wrap, DecodeList;
    LowReads(data, off, Wrap(v, 8));
    I64RoundTrip(v);
    AtGet(data, off, Le64(v));
  }

  lemma {:induction false} NullDecodes(data: Bytes, off: nat, sigil: Byte)
    requires At(data, off, Zeros(8)) && (sigil == SIGIL_INT || sigil == SIGIL_NULL)
    ensures DecodeValue(data, off, sigil) == Ok(if sigil == SIGIL_INT then Int(0) else NullValue)
  {
    hide Le, ReadLe, ReadI64, DecodeList;
    ZeroIsZeros();
    LowReads(data, off, 0);
    I64RoundTrip(0);
    AtGet(data, off, Le64(0));
  }

  /** A zero integer and a null are the same eight bytes. */
  lemma {:induction false} ZeroIsZeros()
    ensures Le64(0) == Zeros(8) && Le(0, 8) == Zeros(8) && Wrap(0, 8) == 0
  {
    Pow256Values();
    ZerosLe(8);
  }

  lemma {:induction false} ZerosLe(n: nat)
    ensures Le(0, n) == Zeros(n)
  {
    if n > 0 {
      ZerosLe(n - 1);
      assert Zeros(n) == [0] + Zeros(n - 1);
    }
  }

  lemma {:induction false} TextDecodes(data: Bytes, off: nat, s: Bytes)
    requires At(data, off, CompactCells.StrCell(s, 4)) && |s| <= 0x10_0000
    ensures DecodeValue(data, off, SIGIL_STR) == Ok(Text(s))
  {
    hide Le, ReadLe, DecodeList;
    TextReads(data, off, s);
  }

  lemma {:induction false} BlobDecodes(data: Bytes, off: nat, s: Bytes)
    requires At(data, off, CompactCells.StrCell(s, 4)) && |s| < 0x1000_0000
    ensures DecodeValue(data, off, SIGIL_BINARY) == Ok(Blob(s))
  {
    hide Le, ReadLe, DecodeList;
    TextReads(data, off, s);
  }

  // ── Looking fields up by name ─────────────────────────────────────────────

  function AsInt(v: Value): Option<Int64>
  {
    if v.Int? then Some(v.i) else if v.Instant? then Some(v.t) else None
  }

  /** `get_i64`: the first field of the name that holds an integer or a time. */
  function GetInt(fields: seq<Field>, name: Bytes): Option<Int64>
  {
    if |fields| == 0 then None
    else if fields[0].key == name && AsInt(fields[0].value).Some? then AsInt(fields[0].value)
    else GetInt(fields[1..], name)
  }

  /** `get_str`, which gives an empty text when there is none. */
  function GetText(fields: seq<Field>, name: Bytes): Bytes
  {
    if |fields| == 0 then []
    else if fields[0].key == name && fields[0].value.Text? then fields[0].value.s
    else GetText(fields[1..], name)
  }

  function GetBlob(fields: seq<Field>, name: Bytes): Option<Bytes>
  {
    if |fields| == 0 then None
    else if fields[0].key == name && fields[0].value.Blob? then Some(fields[0].value.raw)
    else GetBlob(fields[1..], name)
  }

  predicate HasNull(fields: seq<Field>, name: Bytes)
  {
    exists k :: 0 <= k < |fields| && fields[k].key == name && fields[k].value.NullValue?
  }

  ghost predicate DistinctKeys(keys: seq<Bytes>)
  {
    forall j, k :: 0 <= j < k < |keys| ==> keys[j] != keys[k]
  }

  lemma {:induction false} NameAbsent(data: Bytes, obj: nat, writes: seq<Write>, keys: seq<Bytes>, sigils: Bytes,
      i: nat, name: Bytes)
    requires i <= |keys| && WrittenFields(data, obj, writes, keys, sigils, i).Ok? && (forall k :: i <= k < |keys| ==> keys[k] != name)
    ensures var fields := WrittenFields(data, obj, writes, keys, sigils, i).value;
            && (forall k :: 0 <= k < |fields| ==> fields[k].key != name)
            && GetInt(fields, name).None? && GetText(fields, name) == [] && GetBlob(fields, name).None? && !HasNull(fields, name)
    decreases |keys| - i
  {
    hide ValueOf, Lookup;
    if i < |keys| { NameAbsent(data, obj, writes, keys, sigils, i + 1, name); }
  }

  /** With distinct keys, every lookup by a key's name comes down to the value of its slot. */
  lemma {:induction false} LooksUp(data: Bytes, obj: nat, writes: seq<Write>, keys: seq<Bytes>, sigils: Bytes,
      i: nat, s: nat)
    requires DistinctKeys(keys) && i <= s < |keys| && WrittenFields(data, obj, writes, keys, sigils, i).Ok?
    ensures Lookup(writes, s).Some? ==> ValueOf(data, obj, writes, |keys|, sigils, s).Ok?
    ensures var fields := WrittenFields(data, obj, writes, keys, sigils, i).value;
            var value := if Lookup(writes, s).Some? then Some(ValueOf(data, obj, writes, |keys|, sigils, s).value) else None;
            && GetInt(fields, keys[s]) == (if value.Some? then AsInt(value.value) else None)
            && GetText(fields, keys[s]) == (if value.Some? && value.value.Text? then value.value.s else [])
            && GetBlob(fields, keys[s]) == (if value.Some? && value.value.Blob? then Some(value.value.raw) else None)
            && HasNull(fields, keys[s]) == (value.Some? && value.value.NullValue?)
    decreases s - i
  {
    hide ValueOf, Lookup;
    if i < s {
      LooksUp(data, obj, writes, keys, sigils, i + 1, s);
      if Lookup(writes, i).Some? { NullHead(WrittenFields(data, obj, writes, keys, sigils, i).value, keys[s]); }
    } else {
      NameAbsent(data, obj, writes, keys, sigils, i + 1, keys[s]);
      if Lookup(writes, i).Some? { NullHead(WrittenFields(data, obj, writes, keys, sigils, i).value, keys[s]); }
    }
  }

  lemma {:induction false} NullHead(fields: seq<Field>, name: Bytes)
    requires |fields| > 0
    ensures HasNull(fields, name) == ((fields[0].key == name && fields[0].value.NullValue?) || HasNull(fields[1..], name))
  {
    if HasNull(fields[1..], name) {
      var k :| 0 <= k < |fields[1..]| && fields[1..][k].key == name && fields[1..][k].value.NullValue?;
      assert fields[k + 1] == fields[1..][k];
    }
    if HasNull(fields, name) {
      var k :| 0 <= k < |fields| && fields[k].key == name && fields[k].value.NullValue?;
      if k > 0 { assert fields[1..][k - 1] == fields[k]; }
    }
  }

  /** The fields are all there exactly when every written value decodes. */
  lemma {:induction false} FieldsDecode(data: Bytes, obj: nat, writes: seq<Write>, keys: seq<Bytes>, sigils: Bytes,
      i: nat)
    requires i <= |keys|
    ensures WrittenFields(data, obj, writes, keys, sigils, i).Ok? <==>
            forall s :: i <= s < |keys| && Lookup(writes, s).Some? ==> ValueOf(data, obj, writes, |keys|, sigils, s).Ok?
    decreases |keys| - i
  {
    hide ValueOf, Lookup;
    if i < |keys| { FieldsDecode(data, obj, writes, keys, sigils, i + 1); }
  }
}
