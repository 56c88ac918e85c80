/**
 Turning a row writer's buffer into a columnar file: every object is decoded back to a table row, and the
 file is the columnar file of the rows that were written, whatever order their slots were written in.
 */
module ColumnarFromRows {
  import opened Bytes
  import opened Bitmask
  import opened CompactSchema
  import opened Preamble
  import opened Columns
  import opened TableLayout
  import opened RowFile
  import opened CompactFile
  import opened RowWriter
  import Inference
  import RowObject
  import CompactRecord

  /** The table row of an object's writes. */
  function TableRow(writes: seq<RowObject.Write>, n: nat): (row: Row)
    ensures |row| == n
  {
    seq(n, s requires 0 <= s => if RowObject.Lookup(writes, s).Some? then RowObject.Lookup(writes, s).value else Absent)
  }

  function TableRows(rows: seq<seq<RowObject.Write>>, n: nat): (t: seq<Row>)
    ensures |t| == |rows| && forall k :: 0 <= k < |t| ==> t[k] == TableRow(rows[k], n)
  {
    seq(|rows|, k requires 0 <= k < |rows| => TableRow(rows[k], n))
  }

  // ── Decoding one object ───────────────────────────────────────────────────

  /** `read_cell_at`; a number past the end of the buffer is a slice out of range. */
  function ReadCellAt(buf: Bytes, off: nat, sigil: Byte): Result<Cell>
  {
    match RowObject.ReadValue(buf, off, sigil)
    case Some(c) => Ok(c)
    case None =>
      if sigil == SIGIL_INT || sigil == SIGIL_FLOAT || sigil == SIGIL_BOOL || sigil == SIGIL_TIME then Err(Panic)
      else if sigil == SIGIL_KEYWORD then Err(UnsupportedFieldType)
      else Err(OutOfBounds)
  }

  /** The flags after the seven of a mask byte, as far as the row is wide. */
  function Taken(b: Byte, slot: nat, present: seq<bool>): (r: seq<bool>)
    ensures |r| == |present|
  {
    seq(|present|, s requires 0 <= s < |present| => if slot <= s < slot + 7 then Bit(b, s - slot) else present[s])
  }

  method TakeFlags(b: Byte, slot: nat, present: seq<bool>) returns (r: seq<bool>)
    ensures r == Taken(b, slot, present)
  {
    r := present;
    for bit := 0 to 7
      invariant |r| == |present|
      invariant forall s :: 0 <= s < |r| ==> r[s] == if slot <= s < slot + bit then Bit(b, s - slot) else present[s]
    {
      if slot + bit >= |present| { break; }
      r := r[slot + bit := Bit(b, bit)];
    }
  }

  datatype Flags = Flags(present: seq<bool>, end: nat)

  /** The bitmask, from the byte of `slot` on; it may be shorter than the row, but not cut off. */
  function FlagsFrom(buf: Bytes, p: nat, slot: nat, present: seq<bool>): Result<Flags>
    decreases |buf| - p
  {
    if slot >= |present| then Ok(Flags(present, p))
    else if p >= |buf| then Err(OutOfBounds)
    else
      var taken := Taken(buf[p], slot, present);
      if More(buf[p]) then FlagsFrom(buf, p + 1, slot + 7, taken) else Ok(Flags(taken, p + 1))
  }

  method ReadFlags(buf: Bytes, start: nat, width: nat) returns (r: Result<Flags>)
    ensures r == FlagsFrom(buf, start, 0, AllFalse(width))
  {
    hide Bit, More, Taken;
    var present, p, slot := seq(width, s => false), start, 0;
    assert present == AllFalse(width);
    while slot < width
      invariant |present| == width
      invariant FlagsFrom(buf, start, 0, AllFalse(width)) == FlagsFrom(buf, p, slot, present)
      decreases |buf| - p
    {
      if p >= |buf| { return Err(OutOfBounds); }
      var b := buf[p];
      p := p + 1;
      present := TakeFlags(b, slot, present);
      slot := slot + 7;
      if !More(b) { return Ok(Flags(present, p)); }
    }
    r := Ok(Flags(present, p));
  }

  /** The cells of the first `n` slots: the table entry of each present one, in rank order, or the first error. */
  function CellsUpTo(buf: Bytes, obj: nat, table: nat, present: seq<bool>, sigils: Bytes, n: nat): (r: Result<Row>)
    requires n <= |present|
    ensures r.Ok? ==> |r.value| == n
  {
    if n == 0 then Ok([])
    else
      var front :- CellsUpTo(buf, obj, table, present, sigils, n - 1);
      if !present[n - 1] then Ok(front + [Absent])
      else
        match ReadU(buf, table + 2 * Count(present[..n - 1]), 2)
        case None => Err(OutOfBounds)
        case Some(rel) =>
          var cell :- ReadCellAt(buf, obj + rel, SigilAt(sigils, n - 1));
          Ok(front + [cell])
  }

  lemma {:induction false} CellsFail(buf: Bytes, obj: nat, table: nat, present: seq<bool>, sigils: Bytes, k: nat,
      n: nat)
    requires k <= n <= |present| && CellsUpTo(buf, obj, table, present, sigils, k).Err?
    ensures CellsUpTo(buf, obj, table, present, sigils, n) == CellsUpTo(buf, obj, table, present, sigils, k)
    decreases n
  {
    hide ReadU, Count, ReadCellAt;
    if k < n { CellsFail(buf, obj, table, present, sigils, k, n - 1); }
  }

  /** `decode_row_object` */
  function RowAt(buf: Bytes, obj: nat, width: nat, sigils: Bytes): Result<Row>
  {
    if obj + 8 > |buf| then Err(OutOfBounds)
    else if ReadLe(buf[obj..obj + 4]) != CompactRecord.MAGIC_OBJ then Err(BadMagic)
    else
      var flags :- FlagsFrom(buf, obj + 8, 0, AllFalse(width));
      CellsUpTo(buf, obj, flags.end, flags.present, sigils, |flags.present|)
  }

  method DecodeRowObject(buf: Bytes, obj: nat, width: nat, sigils: Bytes) returns (r: Result<Row>)
    ensures r == RowAt(buf, obj, width, sigils)
  {
    hide ReadLe, FlagsFrom, CellsUpTo;
    if obj + 8 > |buf| { return Err(OutOfBounds); }
    if ReadLe(buf[obj..obj + 4]) != CompactRecord.MAGIC_OBJ { return Err(BadMagic); }
    var flags := ReadFlags(buf, obj + 8, width);
    if flags.Err? { return Err(flags.error); }
    r := ReadCells(buf, obj, flags.value.end, flags.value.present, sigils);
  }

  /** The value loop of `decode_row_object`. */
  method ReadCells(buf: Bytes, obj: nat, table: nat, present: seq<bool>, sigils: Bytes) returns (r: Result<Row>)
    ensures r == CellsUpTo(buf, obj, table, present, sigils, |present|)
  {
    hide RowObject.ReadValue, ReadU, Count;
    var width := |present|;
    var cells: Row := seq(width, s => Absent);
    var rank := 0;
    NoneCounted(present);
    for s := 0 to width
      invariant |cells| == width && rank == Count(present[..s])
      invariant CellsUpTo(buf, obj, table, present, sigils, s) == Ok(cells[..s])
      invariant forall k :: s <= k < width ==> cells[k] == Absent
    {
      CountOne(present, s);
      if !present[s] {
        assert cells[..s + 1] == cells[..s] + [Absent];
        continue;
      }
      var rel := ReadU(buf, table + 2 * rank, 2);
      if rel.None? {
        CellsFail(buf, obj, table, present, sigils, s + 1, width);
        return Err(OutOfBounds);
      }
      var cell := ReadCellAt(buf, obj + rel.value, SigilAt(sigils, s));
      if cell.Err? {
        CellsFail(buf, obj, table, present, sigils, s + 1, width);
        return Err(cell.error);
      }
      ghost var before := cells;
      cells := cells[s := cell.value];
      assert cells[..s + 1] == before[..s] + [cell.value];
      rank := rank + 1;
    }
    assert cells[..width] == cells;
    r := Ok(cells);
  }

  lemma {:induction false} NoneCounted(present: seq<bool>)
    ensures Count(present[..0]) == 0
  {
  }

  lemma {:induction false} CountOne(present: seq<bool>, s: nat)
    requires s < |present|
    ensures Count(present[..s + 1]) == Count(present[..s]) + if present[s] then 1 else 0
  {
    assert present[..s + 1][..s] == present[..s];
  }

  // ── What written objects decode to ────────────────────────────────────────

  /** What a null reads back as in a column of a type: the type's zero. */
  function NullAs(sigil: Byte): Cell
  {
    if sigil == SIGIL_INT then I64(0)
    else if sigil == SIGIL_FLOAT then F64(0)
    else if sigil == SIGIL_BOOL then Bool(false)
    else if sigil == SIGIL_TIME then Time(0)
    else if sigil == SIGIL_STR then Str([])
    else if sigil == SIGIL_BINARY then Binary([])
    else Null
  }

  function ReadBack(c: Cell, sigil: Byte): Cell { if c.Null? then NullAs(sigil) else c }

  /** The cell has its column's type, or is a null in a column of some type. */
  predicate Decodable(c: Cell, sigil: Byte)
  {
    RowObject.ValueTyped(c, sigil)
    || (c.Null? && sigil in {SIGIL_INT, SIGIL_FLOAT, SIGIL_BOOL, SIGIL_TIME, SIGIL_STR, SIGIL_BINARY, SIGIL_NULL})
  }

  /** Every value of the object decodes under the sigil that the writer settled on for its slot. */
  ghost predicate RowDecodable(writes: seq<RowObject.Write>, n: nat, sigils: Bytes)
  {
    forall s :: 0 <= s < n && RowObject.Lookup(writes, s).Some? ==>
      Decodable(RowObject.Lookup(writes, s).value, SigilAt(sigils, s))
  }

  /** The row that decoding an object's writes gives. */
  function RowBack(writes: seq<RowObject.Write>, n: nat, sigils: Bytes): (row: Row)
    ensures |row| == n
  {
    seq(n, s requires 0 <= s => if RowObject.Lookup(writes, s).Some? then ReadBack(RowObject.Lookup(writes, s).value, SigilAt(sigils, s)) else Absent)
  }

  lemma {:induction false} DecodableReads(buf: Bytes, off: nat, c: Cell, sigil: Byte)
    requires Decodable(c, sigil) && At(buf, off, RowObject.ValueBytes(c))
    ensures ReadCellAt(buf, off, sigil) == Ok(ReadBack(c, sigil))
  {
    hide RowObject.ReadValue, At, RowObject.ValueBytes;
    if c.Null? {
      ZerosRead(buf, off, sigil);
    } else {
      RowObject.ValueReads(buf, off, c, sigil);
    }
  }

  lemma {:induction false} ZerosRead(buf: Bytes, off: nat, sigil: Byte)
    requires At(buf, off, RowObject.ValueBytes(Null)) && Decodable(Null, sigil)
    ensures RowObject.ReadValue(buf, off, sigil) == Some(NullAs(sigil))
  {
    hide Le, ReadI64, ReadLe;
    Pow256Values();
    LeZero(8);
    LeZero(4);
    I64RoundTrip(0);
    LeRoundTrip(0, 8);
    assert At(buf, off, Zeros(4) + Zeros(4)) by { assert Zeros(8) == Zeros(4) + Zeros(4); }
    AtConcat(buf, off, Zeros(4), Zeros(4));
    AtLe(buf, off, 0, 4);
    AtGet(buf, off, Le(0, 8));
    AtHead(buf, off, [0], Zeros(7));
    assert Zeros(8) == [0] + Zeros(7);
    AtGet(buf, off + 4, []);
  }

  lemma {:induction false} LeZero(n: nat)
    ensures Le(0, n) == Zeros(n)
  {
    if n > 0 { LeZero(n - 1); }
  }

  lemma {:induction false} FlagsOfMask(buf: Bytes, p: nat, slot: nat, flags: seq<bool>, present: seq<bool>)
    requires slot < |flags| == |present| && At(buf, p, MaskBytes(flags[slot..]))
    requires forall s :: 0 <= s < slot ==> present[s] == flags[s]
    ensures FlagsFrom(buf, p, slot, present) == Ok(Flags(flags, p + MaskLen(|flags| - slot)))
    decreases |flags| - slot
  {
    hide MaskBytes, Bit, At;
    var rest := flags[slot..];
    MaskHead(buf, p, rest);
    FlagsTaken(buf[p], flags, slot);
    var taken := Taken(buf[p], slot, present);
    if |rest| > 7 {
      assert rest[7..] == flags[slot + 7..];
      FlagsOfMask(buf, p + 1, slot + 7, flags, taken);
    } else {
      assert taken == flags;
    }
  }

  lemma {:induction false} FlagsTaken(b: Byte, flags: seq<bool>, slot: nat)
    requires slot < |flags| && HoldsBits(b, Head(flags[slot..]))
    ensures forall s :: slot <= s < slot + 7 && s < |flags| ==> Bit(b, s - slot) == flags[s]
  {
    hide Bit;
    forall s | slot <= s < slot + 7 && s < |flags|
      ensures Bit(b, s - slot) == flags[s]
    {
      assert Head(flags[slot..])[s - slot] == flags[s];
    }
  }

  lemma {:induction false} HeadReads(buf: Bytes, obj: nat, writes: seq<RowObject.Write>, n: nat)
    requires At(buf, obj, RowObject.Object(writes, n))
    ensures obj + 8 <= |buf| && ReadLe(buf[obj..obj + 4]) == CompactRecord.MAGIC_OBJ
    ensures At(buf, obj + 8, MaskBytes(RowObject.Present(writes, n)))
  {
    hide RowObject.Object, MaskBytes, RowObject.TableBytes, RowObject.Values;
    RowObject.ObjectParts(buf, obj, writes, n);
    Pow256Values();
    AtLe(buf, obj, CompactRecord.MAGIC_OBJ, 4);
  }

  /** Following the table entry of a present slot leads to the cell that was written. */
  lemma {:induction false} CellFound(buf: Bytes, obj: nat, writes: seq<RowObject.Write>, n: nat, s: nat, sigil: Byte)
    requires RowObject.Writable(writes, n) && RowObject.InReach(writes, n) && At(buf, obj, RowObject.Object(writes, n)) && s < n
    requires RowObject.Lookup(writes, s).Some? && Decodable(RowObject.Lookup(writes, s).value, sigil)
    ensures var rel := ReadU(buf, obj + 8 + MaskLen(n) + 2 * Count(RowObject.Present(writes, n)[..s]), 2);
            rel.Some? && ReadCellAt(buf, obj + rel.value, sigil) == Ok(ReadBack(RowObject.Lookup(writes, s).value, sigil))
  {
    hide RowObject.Object, RowObject.Lookup, RowObject.IndexOf, ReadCellAt, RowObject.TableBytes, At, RowObject.Rel,
         ReadU, RowObject.ValueBytes, Decodable, ReadBack;
    var k := RowObject.IndexOf(writes, s);
    RowObject.ObjectParts(buf, obj, writes, n);
    RowObject.EntryOf(buf, obj + 8 + MaskLen(n), writes, n, s);
    ModUnique(RowObject.Rel(writes, n, k), U16, 0, RowObject.Rel(writes, n, k));
    RowObject.ValueAt(buf, obj, writes, n, k);
    DecodableReads(buf, obj + RowObject.Rel(writes, n, k), writes[k].cell, sigil);
  }

  lemma {:induction false} CellsBack(buf: Bytes, obj: nat, writes: seq<RowObject.Write>, n: nat, sigils: Bytes, k: nat)
    requires RowObject.Writable(writes, n) && RowObject.InReach(writes, n) && At(buf, obj, RowObject.Object(writes, n)) && k <= n
    requires RowDecodable(writes, n, sigils)
    ensures CellsUpTo(buf, obj, obj + 8 + MaskLen(n), RowObject.Present(writes, n), sigils, k) == Ok(RowBack(writes, n, sigils)[..k])
  {
    hide RowObject.Object, RowObject.InReach, RowObject.Lookup, ReadCellAt, MaskLen, ReadU, At, RowObject.Writable,
         Count, Decodable, ReadBack;
    if k > 0 {
      CellsBack(buf, obj, writes, n, sigils, k - 1);
      if RowObject.Present(writes, n)[k - 1] { CellFound(buf, obj, writes, n, k - 1, SigilAt(sigils, k - 1)); }
      assert RowBack(writes, n, sigils)[..k] == RowBack(writes, n, sigils)[..k - 1] + [RowBack(writes, n, sigils)[k - 1]];
    }
  }

  /** A written object in reach decodes to its row, a null as the zero of its column's type. */
  lemma {:induction false} RowDecodes(buf: Bytes, obj: nat, writes: seq<RowObject.Write>, n: nat, sigils: Bytes)
    requires RowObject.Writable(writes, n) && RowObject.InReach(writes, n) && At(buf, obj, RowObject.Object(writes, n)) && n > 0
    requires RowDecodable(writes, n, sigils)
    ensures RowAt(buf, obj, n, sigils) == Ok(RowBack(writes, n, sigils))
  {
    hide RowObject.Object, RowObject.InReach, RowObject.Writable, RowDecodable, MaskBytes, ReadLe, At, RowBack,
         FlagsFrom, CellsUpTo, RowObject.Present;
    HeadReads(buf, obj, writes, n);
    var flags := RowObject.Present(writes, n);
    assert flags[0..] == flags;
    FlagsOfMask(buf, obj + 8, 0, flags, AllFalse(n));
    CellsBack(buf, obj, writes, n, sigils, n);
    assert RowBack(writes, n, sigils)[..n] == RowBack(writes, n, sigils);
  }

  // ── The whole buffer ──────────────────────────────────────────────────────

  /** The rows of the first `n` recorded objects, or the first error. */
  function RowsUpTo(buf: Bytes, offs: seq<nat>, width: nat, sigils: Bytes, n: nat): (r: Result<seq<Row>>)
    requires n <= |offs|
  {
    if n == 0 then Ok([])
    else
      var front :- RowsUpTo(buf, offs, width, sigils, n - 1);
      var row :- RowAt(buf, offs[n - 1], width, sigils);
      Ok(front + [row])
  }

  lemma {:induction false} RowsFail(buf: Bytes, offs: seq<nat>, width: nat, sigils: Bytes, k: nat, n: nat)
    requires k <= n <= |offs| && RowsUpTo(buf, offs, width, sigils, k).Err?
    ensures RowsUpTo(buf, offs, width, sigils, n) == RowsUpTo(buf, offs, width, sigils, k)
    decreases n
  {
    hide RowAt;
    if k < n { RowsFail(buf, offs, width, sigils, k, n - 1); }
  }

  /** `columnar_from_writer`, of any writer. */
  method ColumnarFromWriter(w: NxsWriter, hash: Hash) returns (r: Result<Bytes>)
    ensures r == match RowsUpTo(w.buf, w.recordOffsets, |w.keys|, w.slotSigils, |w.recordOffsets|)
                 case Err(e) => Err(e)
                 case Ok(rows) => Columnar(w.keys, rows, hash)
  {
    hide RowAt, Columnar;
    var rows: seq<Row> := [];
    for ri := 0 to |w.recordOffsets|
      invariant RowsUpTo(w.buf, w.recordOffsets, |w.keys|, w.slotSigils, ri) == Ok(rows)
    {
      var cells := DecodeRowObject(w.buf, w.recordOffsets[ri], |w.keys|, w.slotSigils);
      if cells.Err? {
        RowsFail(w.buf, w.recordOffsets, |w.keys|, w.slotSigils, ri + 1, |w.recordOffsets|);
        return Err(cells.error);
      }
      rows := rows + [cells.value];
    }
    r := FinishColumnar(w.keys, rows, hash);
  }

  /** Rows that the buffer holds in reach, and that decode under the sigils. */
  ghost predicate AllDecodable(rows: seq<seq<RowObject.Write>>, n: nat, sigils: Bytes)
  {
    StartsBelow(Objects(rows, n)) &&
    forall k :: 0 <= k < |rows| ==> RowObject.Writable(rows[k], n) && RowObject.InReach(rows[k], n) && RowDecodable(rows[k], n, sigils)
  }

  function RowsBack(rows: seq<seq<RowObject.Write>>, n: nat, sigils: Bytes): (t: seq<Row>)
    ensures |t| == |rows| && forall k :: 0 <= k < |t| ==> t[k] == RowBack(rows[k], n, sigils)
  {
    seq(|rows|, k requires 0 <= k < |rows| => RowBack(rows[k], n, sigils))
  }

  /** The buffer of finished objects decodes to the rows that were written, whatever order their slots were written in. */
  lemma {:induction false} BufferDecodes(rows: seq<seq<RowObject.Write>>, n: nat, sigils: Bytes, k: nat)
    requires AllDecodable(rows, n, sigils) && n > 0 && k <= |rows|
    ensures RowsUpTo(Join(Objects(rows, n)), Starts(Objects(rows, n)), n, sigils, k) == Ok(RowsBack(rows, n, sigils)[..k])
  {
    hide Join, RowObject.Object, RowObject.Writable, RowObject.InReach, RowDecodable, RowAt, RowBack, StartsBelow,
         Starts;
    if k > 0 {
      BufferDecodes(rows, n, sigils, k - 1);
      ObjectStarts(Objects(rows, n), k - 1);
      RowDecodes(Join(Objects(rows, n)), Starts(Objects(rows, n))[k - 1], rows[k - 1], n, sigils);
      assert RowsBack(rows, n, sigils)[..k] == RowsBack(rows, n, sigils)[..k - 1] + [RowsBack(rows, n, sigils)[k - 1]];
    }
  }

  lemma {:induction false} ObjectStarts(objects: seq<Bytes>, k: nat)
    requires k < |objects| && StartsBelow(objects)
    ensures At(Join(objects), Starts(objects)[k], objects[k])
  {
    hide Join;
    assert At(Join(objects), 0, Join(objects));
    JoinAt(Join(objects), 0, objects, k);
    JoinMono(objects, k, |objects| - 1);
    ModUnique(|Join(objects[..k])|, U32, 0, |Join(objects[..k])|);
  }

  /** Without nulls in typed columns, the rows come back as they were written. */
  lemma {:induction false} TypedComeBack(rows: seq<seq<RowObject.Write>>, n: nat, sigils: Bytes)
    requires forall k, s :: 0 <= k < |rows| && 0 <= s < n && RowObject.Lookup(rows[k], s).Some? ==>
               RowObject.ValueTyped(RowObject.Lookup(rows[k], s).value, SigilAt(sigils, s))
    ensures RowsBack(rows, n, sigils) == TableRows(rows, n)
  {
    hide RowObject.Lookup;
    forall k | 0 <= k < |rows|
      ensures RowBack(rows[k], n, sigils) == TableRow(rows[k], n)
    {
    }
  }

  /** `columnar_from_writer`, of a writer without an open object: the columnar file of exactly the rows it was given. */
  method ColumnarOfRows(w: NxsWriter, hash: Hash) returns (r: Result<Bytes>)
    requires w.Valid() && w.frame.None? && w.compact.None? && |w.keys| > 0 && AllDecodable(w.rows, |w.keys|, w.slotSigils)
    ensures r == Columnar(w.keys, RowsBack(w.rows, |w.keys|, w.slotSigils), hash)
  {
    hide Join, RowObject.Object, AllDecodable, Columnar, RowsUpTo, RowsBack, Inference.SigilsSeen, Inference.MinsSeen,
         Inference.MaxsSeen, Inference.StringsSeen;
    assert w.buf + [] == w.buf && w.recordOffsets + [] == w.recordOffsets;
    assert w.buf == Join(Objects(w.rows, |w.keys|)) && w.recordOffsets == Starts(Objects(w.rows, |w.keys|));
    BufferDecodes(w.rows, |w.keys|, w.slotSigils, |w.rows|);
    r := ColumnarFromWriter(w, hash);
    RowsLen(w.rows, |w.keys|, w.slotSigils);
  }

  lemma {:induction false} RowsLen(rows: seq<seq<RowObject.Write>>, n: nat, sigils: Bytes)
    ensures RowsBack(rows, n, sigils)[..|rows|] == RowsBack(rows, n, sigils)
  {
  }
}
