/**
 One column of a table: a presence bitmap, then eight bytes a cell, or four-byte offsets and the payloads
 they cut. The readers take a column apart again knowing only its number of cells and its sigil.
 */
module Columns {
  import opened Bytes
  import opened CompactSchema

  /** A cell of a table row; a float is its 64-bit pattern (binary64 of IEEE 754-2019, section 3.4). */
  datatype Cell = Absent | Null | I64(i: Int64) | F64(bits: Bits64) | Bool(b: bool) | Time(t: Int64)
                | Str(s: Bytes) | Binary(raw: Bytes)

  // ── The presence bitmap ───────────────────────────────────────────────────

  /** `null_bitmap_bytes`: whole bytes, rounded up to eight of them. */
  function BitmapLen(n: nat): nat
  {
    ((n + 7) / 8 + 7) / 8 * 8
  }

  function Octet(present: seq<bool>, k: nat): Byte
  {
    Pow2Eight();
    BitsValue(seq(8, j requires 0 <= j => 8 * k + j < |present| && present[8 * k + j]))
  }

  lemma {:induction false} Pow2Eight()
    ensures Pow2(8) == 256
  {
    assert Pow2(8) == 2 * Pow2(7) == 4 * Pow2(6) == 8 * Pow2(5) == 16 * Pow2(4);
  }

  function Bitmap(present: seq<bool>): (b: Bytes)
    ensures |b| == BitmapLen(|present|)
  {
    seq(BitmapLen(|present|), k requires 0 <= k => Octet(present, k))
  }

  predicate ColBit(bm: Bytes, rec: nat)
    requires rec / 8 < |bm|
  {
    Bit(bm[rec / 8], rec % 8)
  }

  lemma {:induction false} OctetBit(present: seq<bool>, k: nat, j: nat)
    requires j < 8
    ensures Bit(Octet(present, k), j) == (8 * k + j < |present| && present[8 * k + j])
  {
    var bits := seq(8, j requires 0 <= j => 8 * k + j < |present| && present[8 * k + j]);
    BitOfBits(bits, j);
  }

  lemma {:induction false} BitmapBit(present: seq<bool>, i: nat)
    requires i < |present|
    ensures i / 8 < BitmapLen(|present|) && ColBit(Bitmap(present), i) == present[i]
  {
    OctetBit(present, i / 8, i % 8);
  }

  /** Two bytes with the same bits are the same. */
  lemma {:induction false} BitsDetermine(a: nat, b: nat, n: nat)
    requires a < Pow2(n) && b < Pow2(n) && forall j: nat :: j < n ==> Bit(a, j) == Bit(b, j)
    ensures a == b
  {
    if n > 0 {
      assert Bit(a, 0) == Bit(b, 0);
      forall j: nat | j < n - 1
        ensures Bit(a / 2, j) == Bit(b / 2, j)
      {
        assert Bit(a, j + 1) == Bit(b, j + 1);
      }
      BitsDetermine(a / 2, b / 2, n - 1);
    }
  }

  /** `encode_null_bitmap`: set one bit at a time. */
  method EncodeNullBitmap(present: seq<bool>) returns (b: Bytes)
    ensures b == Bitmap(present)
  {
    hide SetBit, Bit, BitsValue;
    b := Zeros(BitmapLen(|present|));
    NoBits();
    for i := 0 to |present|
      invariant |b| == BitmapLen(|present|)
      invariant forall k: nat, j: nat :: k < |b| && j < 8 ==> Bit(b[k], j) == (8 * k + j < i && present[8 * k + j])
    {
      if present[i] {
        SetBitIsByte(b[i / 8], i % 8);
        forall j: nat ensures Bit(SetBit(b[i / 8], i % 8), j) == (i % 8 == j || Bit(b[i / 8], j)) { BitOfSet(b[i / 8], i % 8, j); }
        b := b[i / 8 := SetBit(b[i / 8], i % 8)];
      }
    }
    forall k | 0 <= k < |b|
      ensures b[k] == Octet(present, k)
    {
      Pow2Eight();
      forall j: nat | j < 8 ensures Bit(b[k], j) == Bit(Octet(present, k), j) { OctetBit(present, k, j); }
      BitsDetermine(b[k], Octet(present, k), 8);
    }
  }

  lemma {:induction false} NoBits()
    ensures forall j: nat :: !Bit(0, j)
  {
    forall j: nat ensures !Bit(0, j) { BitZero(j); }
  }

  lemma {:induction false} SetBitIsByte(b: nat, i: nat)
    requires b < 256 && i < 8
    ensures SetBit(b, i) < 256
  {
    Pow2Eight();
    SetBitBound(b, i, 8);
  }

  lemma {:induction false} SetBitBound(b: nat, i: nat, n: nat)
    requires b < Pow2(n) && i < n
    ensures SetBit(b, i) < Pow2(n)
  {
    assert Pow2(n) == 2 * Pow2(n - 1);
    if i > 0 {
      assert b / 2 < Pow2(n - 1);
      SetBitBound(b / 2, i - 1, n - 1);
      assert SetBit(b, i) == b % 2 + 2 * SetBit(b / 2, i - 1);
    }
  }

  // ── Writing a column ──────────────────────────────────────────────────────

  function Present(col: seq<Cell>): (p: seq<bool>)
    ensures |p| == |col| && forall i :: 0 <= i < |p| ==> p[i] == !col[i].Absent?
  {
    seq(|col|, i requires 0 <= i < |col| => !col[i].Absent?)
  }

  /** The eight bytes of a cell in a fixed-width column; a cell of another type is written as zeros. */
  function FixedBytes(c: Cell, sigil: Byte): (b: Bytes)
    ensures |b| == 8
  {
    if sigil == SIGIL_FLOAT then (if c.F64? then Le(c.bits, 8) else Zeros(8))
    else if sigil == SIGIL_BOOL then (if c.Bool? then [if c.b then 1 else 0] + Zeros(7) else Zeros(8))
    else if sigil == SIGIL_TIME then (if c.Time? then Le64(c.t) else Zeros(8))
    else if c.I64? then Le64(c.i) else Zeros(8)
  }

  function FixedValues(col: seq<Cell>, sigil: Byte): (b: Bytes)
    ensures |b| == 8 * |col|
  {
    if |col| == 0 then [] else FixedBytes(col[0], sigil) + FixedValues(col[1..], sigil)
  }

  lemma {:induction false} FixedAt(col: seq<Cell>, sigil: Byte, i: nat)
    requires i < |col|
    ensures At(FixedValues(col, sigil), i * 8, FixedBytes(col[i], sigil))
  {
    var head, rest := FixedBytes(col[0], sigil), FixedValues(col[1..], sigil);
    if i > 0 {
      FixedAt(col[1..], sigil, i - 1);
      AtSlice(head + rest, 8, rest, (i - 1) * 8, i * 8);
    }
  }

  /** `write_fixed_buffer`: the buffer starts as zeros and only present cells are copied in. */
  method WriteFixedBuffer(col: seq<Cell>, sigil: Byte) returns (buf: Bytes)
    ensures buf == FixedValues(col, sigil)
  {
    hide FixedBytes;
    buf := Zeros(|col| * 8);
    assert col[0..] == col;
    ghost var done: Bytes := [];
    for i := 0 to |col|
      invariant |done| == i * 8 && buf == done + Zeros((|col| - i) * 8)
      invariant done + FixedValues(col[i..], sigil) == FixedValues(col, sigil)
    {
      AbsentIsZeros(col[i], sigil);
      assert col[i..][1..] == col[i + 1..];
      if !col[i].Absent? {
        buf := buf[..i * 8] + FixedBytes(col[i], sigil) + buf[(i + 1) * 8..];
      }
      assert done + (FixedBytes(col[i], sigil) + FixedValues(col[i + 1..], sigil)) ==
             (done + FixedBytes(col[i], sigil)) + FixedValues(col[i + 1..], sigil);
      done := done + FixedBytes(col[i], sigil);
    }
  }

  lemma {:induction false} AbsentIsZeros(c: Cell, sigil: Byte)
    ensures c.Absent? ==> FixedBytes(c, sigil) == Zeros(8)
  {
  }

  function Payload(c: Cell): Bytes
  {
    if c.Str? then c.s else if c.Binary? then c.raw else []
  }

  function VarValues(col: seq<Cell>): Bytes
  {
    if |col| == 0 then [] else VarValues(col[..|col| - 1]) + Payload(col[|col| - 1])
  }

  function VarOffsets(col: seq<Cell>): (o: seq<nat>)
    ensures |o| == |col| + 1
  {
    seq(|col| + 1, k requires 0 <= k <= |col| => |VarValues(col[..k])|)
  }

  lemma {:induction false} VarValuesPrefix(col: seq<Cell>, k: nat)
    requires k <= |col|
    ensures VarValues(col[..k]) <= VarValues(col)
    decreases |col| - k
  {
    if k < |col| {
      VarValuesPrefix(col, k + 1);
      VarValuesStep(col, k);
    } else {
      assert col[..k] == col;
    }
  }

  lemma {:induction false} VarValuesStep(col: seq<Cell>, k: nat)
    requires k < |col|
    ensures VarValues(col[..k + 1]) == VarValues(col[..k]) + Payload(col[k])
  {
    assert col[..k + 1][..k] == col[..k];
  }

  lemma {:induction false} NoValues()
    ensures VarValues([]) == []
  {
  }

  /** `encode_var_column`: fails exactly when the payloads outgrow their offsets. */
  function VarColumn(col: seq<Cell>): Result<Bytes>
  {
    if |VarValues(col)| >= U32 then Err(Overflow)
    else Ok(Bitmap(Present(col)) + Fields(VarOffsets(col), 4) + VarValues(col))
  }

  method EncodeVarColumn(col: seq<Cell>) returns (r: Result<Bytes>)
    ensures r == VarColumn(col)
  {
    hide Bitmap, Fields, VarValues, Present;
    var bitmap := EncodeNullBitmap(Present(col));
    var offsets: seq<nat> := [0];
    var values: Bytes := [];
    NoValues();
    assert col[..0] == [];
    for k := 0 to |col|
      invariant values == VarValues(col[..k]) && |values| < U32
      invariant offsets == VarOffsets(col)[..k + 1]
    {
      VarValuesStep(col, k);
      VarValuesPrefix(col, k + 1);
      assert VarOffsets(col)[..k + 2] == VarOffsets(col)[..k + 1] + [|VarValues(col[..k + 1])|];
      assert values + [] == values;
      if col[k].Absent? {
        offsets := offsets + [offsets[|offsets| - 1]];
      } else {
        if col[k].Str? {
          values := values + col[k].s;
        } else if col[k].Binary? {
          values := values + col[k].raw;
        }
        if |values| > 0xFFFF_FFFF { return Err(Overflow); }
        offsets := offsets + [|values|];
      }
    }
    assert col[..|col|] == col;
    assert offsets == VarOffsets(col);
    var out := AppendFields(bitmap, offsets, 4);
    r := Ok(out + values);
  }

  /** `encode_field_column` */
  function Column(col: seq<Cell>, sigil: Byte): Result<Bytes>
  {
    if IsVar(sigil) then VarColumn(col)
    else if sigil == SIGIL_KEYWORD then Err(UnsupportedFieldType)
    else Ok(Bitmap(Present(col)) + FixedValues(col, sigil))
  }

  method EncodeFieldColumn(col: seq<Cell>, sigil: Byte) returns (r: Result<Bytes>)
    ensures r == Column(col, sigil)
  {
    if IsVar(sigil) {
      r := EncodeVarColumn(col);
      return;
    }
    var bitmap := EncodeNullBitmap(Present(col));
    if sigil == SIGIL_KEYWORD { return Err(UnsupportedFieldType); }
    var values := WriteFixedBuffer(col, sigil);
    r := Ok(bitmap + values);
  }

  // ── Reading a column ──────────────────────────────────────────────────────

  /** `column_sector_len`, of a sector that may be followed by anything. */
  function SectorLen(sector: Bytes, n: nat, sigil: Byte): Result<nat>
  {
    var bm := BitmapLen(n);
    if |sector| < bm then Err(OutOfBounds)
    else if IsVar(sigil) then
      if |sector| < bm + (n + 1) * 4 then Err(OutOfBounds)
      else Ok(bm + (n + 1) * 4 + ReadLe(sector[bm + n * 4..bm + n * 4 + 4]))
    else Ok(bm + n * 8)
  }

  datatype Parts = Parts(bitmap: Bytes, values: Bytes)
  datatype VarParts = VarParts(bitmap: Bytes, offsets: Bytes, values: Bytes)

  /** The bitmap and the values of a fixed-width sector. */
  function FixedParts(sector: Bytes, n: nat): (r: Result<Parts>)
    ensures r.Ok? ==> |r.value.bitmap| == BitmapLen(n)
  {
    if |sector| < BitmapLen(n) + n * 8 then Err(OutOfBounds)
    else Ok(Parts(sector[..BitmapLen(n)], sector[BitmapLen(n)..BitmapLen(n) + n * 8]))
  }

  /** `col_var_parts` */
  function VarPartsOf(sector: Bytes, n: nat): (r: Result<VarParts>)
    ensures r.Ok? ==> |r.value.bitmap| == BitmapLen(n)
  {
    var bm, offs := BitmapLen(n), (n + 1) * 4;
    if |sector| < bm + offs then Err(OutOfBounds)
    else Ok(VarParts(sector[..bm], sector[bm..bm + offs], sector[bm + offs..]))
  }

  /** `var_str_at` and `var_binary_at`, for text that is valid UTF-8. */
  function VarAt(offsets: Bytes, values: Bytes, rec: nat): Option<Bytes>
  {
    if |offsets| < (rec + 2) * 4 then None
    else
      var start := ReadLe(offsets[rec * 4..rec * 4 + 4]);
      var end := ReadLe(offsets[rec * 4 + 4..rec * 4 + 8]);
      if end < start || end > |values| then None else Some(values[start..end])
  }

  /** The eight bytes of a present cell. */
  function RawAt(parts: Parts, rec: nat): Option<Bytes>
    requires rec / 8 < |parts.bitmap|
  {
    if !ColBit(parts.bitmap, rec) then None else Get(parts.values, rec * 8, 8)
  }

  lemma {:induction false} RecordInBitmap(n: nat, i: nat)
    requires i < n
    ensures i / 8 < BitmapLen(n)
  {
  }

  // ── What a reader finds ───────────────────────────────────────────────────

  /** The bytes a fixed-width column stores for a cell, `None` for an absent one. */
  function StoredBytes(c: Cell, sigil: Byte): Option<Bytes>
  {
    if IsVar(sigil) || c.Absent? then None else Some(FixedBytes(c, sigil))
  }

  /** The text a string column stores for a cell. */
  function StoredText(c: Cell, sigil: Byte): Option<Bytes>
  {
    if sigil != SIGIL_STR || c.Absent? then None else Some(Payload(c))
  }

  /** A sector is as long as its column, whatever follows it. */
  lemma {:induction false} SectorLenIs(data: Bytes, p: nat, col: seq<Cell>, sigil: Byte)
    requires Column(col, sigil).Ok? && At(data, p, Column(col, sigil).value)
    ensures p <= |data| && SectorLen(data[p..], |col|, sigil) == Ok(|Column(col, sigil).value|)
  {
    hide Bitmap, BitmapLen, Fields, FixedValues, Le, ReadLe;
    var bm, n := BitmapLen(|col|), |col|;
    if IsVar(sigil) {
      var offsets := Fields(VarOffsets(col), 4);
      AtConcat(data, p, Bitmap(Present(col)) + offsets, VarValues(col));
      AtConcat(data, p, Bitmap(Present(col)), offsets);
      Pow256Values();
      assert col[..n] == col;
      FieldReads(data, p + bm, VarOffsets(col), 4, n);
      assert data[p..][bm + n * 4..bm + n * 4 + 4] == data[p + bm + 4 * n..p + bm + 4 * n + 4];
    }
  }

  /** The value of a fixed-width column comes back, and only where a cell is present. */
  lemma {:induction false} FixedReads(col: seq<Cell>, sigil: Byte, i: nat)
    requires i < |col| && Column(col, sigil).Ok? && !IsVar(sigil)
    ensures i / 8 < BitmapLen(|col|)
    ensures FixedParts(Column(col, sigil).value, |col|).Ok?
    ensures RawAt(FixedParts(Column(col, sigil).value, |col|).value, i) == StoredBytes(col[i], sigil)
  {
    hide Bitmap, BitmapLen, FixedValues, FixedBytes, ColBit;
    BitmapBit(Present(col), i);
    FixedAt(col, sigil, i);
    var sector := Column(col, sigil).value;
    assert sector[..BitmapLen(|col|)] == Bitmap(Present(col));
    assert sector[BitmapLen(|col|)..BitmapLen(|col|) + |col| * 8] == FixedValues(col, sigil);
  }

  /** The payload of a variable-length column comes back. */
  lemma {:induction false} VarReads(col: seq<Cell>, sigil: Byte, i: nat)
    requires i < |col| && Column(col, sigil).Ok? && IsVar(sigil)
    ensures i / 8 < BitmapLen(|col|)
    ensures VarPartsOf(Column(col, sigil).value, |col|).Ok?
    ensures var parts := VarPartsOf(Column(col, sigil).value, |col|).value;
            && ColBit(parts.bitmap, i) == !col[i].Absent?
            && VarAt(parts.offsets, parts.values, i) == Some(Payload(col[i]))
  {
    hide Bitmap, BitmapLen, Fields, ColBit, VarValues;
    BitmapBit(Present(col), i);
    var sector := Column(col, sigil).value;
    var offsets := Fields(VarOffsets(col), 4);
    assert sector[..BitmapLen(|col|)] == Bitmap(Present(col));
    assert sector[BitmapLen(|col|)..BitmapLen(|col|) + (|col| + 1) * 4] == offsets;
    assert sector[BitmapLen(|col|) + (|col| + 1) * 4..] == VarValues(col);
    CutAt(col, i);
  }

  lemma {:induction false} CutAt(col: seq<Cell>, i: nat)
    requires i < |col| && |VarValues(col)| < U32
    ensures VarAt(Fields(VarOffsets(col), 4), VarValues(col), i) == Some(Payload(col[i]))
  {
    hide Fields, VarValues, ReadLe;
    var offsets := Fields(VarOffsets(col), 4);
    Pow256Values();
    VarValuesStep(col, i);
    VarValuesPrefix(col, i);
    VarValuesPrefix(col, i + 1);
    assert At(offsets, 0, offsets);
    FieldReads(offsets, 0, VarOffsets(col), 4, i);
    FieldReads(offsets, 0, VarOffsets(col), 4, i + 1);
    var start, end := |VarValues(col[..i])|, |VarValues(col[..i + 1])|;
    assert VarValues(col)[start..end] == VarValues(col[..i + 1])[start..] == Payload(col[i]);
  }
}
