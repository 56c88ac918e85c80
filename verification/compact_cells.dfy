/** One cell of a compact record: how `append_cell` writes it and how the typed getters read it. */
module CompactCells {
  import opened Bytes
  import opened Align
  import opened CompactSchema
  import opened CellRun
  import opened DenseWalk
  import opened WireLength

  /** `CompactCell`; a float is its 64-bit pattern (binary64 of IEEE 754-2019, section 3.4). */
  datatype CompactCell = I64(i: Int64) | F64(bits: Bits64) | Bool(b: bool) | Str(s: Bytes)
                       | Time(t: Int64) | Null | Keyword(idx: nat)

  // ── Integers ──────────────────────────────────────────────────────────────

  predicate FitsWidth(v: int, w: nat)
  {
    if w == 1 then 0 <= v < 256 else FitsSigned(v, w)
  }

  /** `encode_int_cell`: one unsigned byte, or a two's complement integer of 2, 4 or 8 bytes. */
  function EncodeInt(v: Int64, w: nat): (r: Result<Bytes>)
    ensures r.Ok? ==> SmallWidth(w) && |r.value| == w
  {
    if w == 1 then (if 0 <= v < 256 then Ok([v]) else Err(ValueOutOfRange))
    else if w == 2 || w == 4 then (if FitsSigned(v, w) then Ok(Le(Wrap(v, w), w)) else Err(ValueOutOfRange))
    else if w == 8 then Ok(Le64(v))
    else Err(ParseError)
  }

  /** `decode_int_cell` */
  function DecodeInt(data: Bytes, off: nat, w: nat): (r: Result<int>)
  {
    if w == 1 then (if off < |data| then Ok(data[off]) else Err(OutOfBounds))
    else if w == 2 || w == 4 || w == 8 then
      match ReadU(data, off, w)
      case None => Err(OutOfBounds)
      case Some(u) => Ok(Signed(u, w))
    else Err(OutOfBounds)
  }

  /** A value that fits its width is read back from where it was written, and only such values are written. */
  lemma {:induction false} IntRoundTrip(data: Bytes, off: nat, v: Int64, w: nat)
    requires SmallWidth(w)
    ensures EncodeInt(v, w).Ok? <==> FitsWidth(v, w)
    ensures FitsWidth(v, w) && At(data, off, EncodeInt(v, w).value) ==> DecodeInt(data, off, w) == Ok(v)
  {
    Pow256Values();
    if FitsWidth(v, w) && At(data, off, EncodeInt(v, w).value) {
      if w == 1 {
        AtIndex(data, off, [v], 0);
      } else {
        SignedRoundTrip(v, w);
        AtLe(data, off, Wrap(v, w), w);
      }
    }
  }

  // ── Writing ───────────────────────────────────────────────────────────────

  /** The padded string cell: length prefix, payload, zeros up to a multiple of 8 from the cell start. */
  function StrCell(s: Bytes, prefix: nat): (b: Bytes)
    ensures |b| == PastStrCell(0, |s|, prefix)
  {
    Le(|s|, prefix) + s + Zeros((8 - (prefix + |s|) % 8) % 8)
  }

  /** `append_cell`: the alignment it pads to and the bytes it appends. */
  function CellItem(fi: nat, cell: CompactCell, schema: Schema, plan: Plan): (r: Result<Item>)
    ensures r.Ok? ==> r.value.Valid()
  {
    var w := plan.Width(schema, fi);
    match cell
    case I64(v) =>
      var bytes :- EncodeInt(v, w);
      Ok(Item(w, bytes))
    case F64(bits) => if w == 8 then Ok(Item(8, Le(bits, 8))) else Err(ParseError)
    case Bool(b) => if plan.packed then Ok(Item(1, [])) else Ok(Item(8, [if b then 1 else 0] + Zeros(7)))
    case Time(t) => Ok(Item(8, Le64(t)))
    case Str(s) =>
      if schema.IsPromoted(fi) then
        if s in schema.pool then Ok(Item(2, Le(Position(schema.pool, s), 2))) else Err(DictMismatch)
      else
        var prefix := schema.StrLenPrefix(fi);
        if prefix == 2 && |s| >= U16 then Err(ValueOutOfRange)
        else Ok(Item(1, StrCell(s, prefix)))
    case Keyword(idx) => Ok(Item(2, Le(idx, 2)))
    case Null => Ok(Item(1, []))
  }

  function Append(body: Bytes, item: Item): (r: Bytes)
    requires item.Valid()
  {
    PadTo(body, item.align) + item.bytes
  }

  method AppendCell(body: Bytes, fi: nat, cell: CompactCell, schema: Schema, plan: Plan) returns (r: Result<Bytes>)
    ensures r == match CellItem(fi, cell, schema, plan) { case Ok(item) => Ok(Append(body, item)) case Err(e) => Err(e) }
  {
    var w := plan.Width(schema, fi);
    match cell {
      case I64(v) =>
        var b := PadLoop(body, w);
        var bytes := EncodeInt(v, w);
        if bytes.Err? { return Err(bytes.error); }
        r := Ok(b + bytes.value);
      case F64(bits) =>
        var b := PadLoop(body, w);
        if w != 8 { return Err(ParseError); }
        r := Ok(b + Le(bits, 8));
      case Bool(v) =>
        if plan.packed { PadOne(body); return Ok(body); }
        var b := PadLoop(body, 8);
        r := Ok(b + ([if v then 1 else 0] + Zeros(7)));
      case Time(t) =>
        var b := PadLoop(body, 8);
        r := Ok(b + Le64(t));
      case Str(s) =>
        if schema.IsPromoted(fi) {
          var b := PadLoop(body, 2);
          if s !in schema.pool { return Err(DictMismatch); }
          r := Ok(b + Le(Position(schema.pool, s), 2));
        } else {
          var prefix := schema.StrLenPrefix(fi);
          if prefix == 2 && |s| >= U16 { return Err(ValueOutOfRange); }
          PadOne(body);
          r := Ok(body + StrCell(s, prefix));
        }
      case Keyword(idx) =>
        var b := PadLoop(body, 2);
        r := Ok(b + Le(idx, 2));
      case Null =>
        PadOne(body);
        r := Ok(body);
    }
  }

  lemma {:induction false} PadOne(body: Bytes)
    ensures PadTo(body, 1) == body && PadTo(body, 1) + [] == body
  {
    assert RoundUp(|body|, 1) == |body|;
  }

  // ── Typed cells ───────────────────────────────────────────────────────────

  /** The cell has its column's type and fits its column's width, prefix or pool. */
  predicate CellFits(cell: CompactCell, slot: nat, schema: Schema, plan: Plan)
    requires slot < |schema.sigils|
  {
    var sig := schema.sigils[slot];
    match cell
    case I64(v) => sig == SIGIL_INT && FitsWidth(v, plan.Width(schema, slot))
    case F64(_) => sig == SIGIL_FLOAT
    case Bool(_) => sig == SIGIL_BOOL
    case Time(_) => sig == SIGIL_TIME
    case Str(s) =>
      sig == SIGIL_STR &&
      if schema.IsPromoted(slot) then s in schema.pool && Position(schema.pool, s) < U16
      else if schema.IsU16Len(slot) then |s| < U16
      else |s| < U32
    case Keyword(idx) => sig == SIGIL_KEYWORD && idx < U16
    case Null => false
  }

  /** A typed cell is encodable, and its alignment is the one readers assume for its column. */
  lemma {:induction false} FittingCellEncodes(cell: CompactCell, slot: nat, schema: Schema, plan: Plan, pos: nat)
    requires Typed(schema, plan) && slot < schema.Count() && CellFits(cell, slot, schema, plan)
    requires !plan.InWord(slot)
    ensures CellItem(slot, cell, schema, plan).Ok?
    ensures CellOffset(pos, slot, schema, plan) == RoundUp(pos, CellItem(slot, cell, schema, plan).value.align)
  {
    assert SlotTyped(slot, schema, plan);
    assert schema.sigils[slot] != SIGIL_BOOL || !plan.packed;
    SmallPowers();
    AlignsAtPowers(pos, 2);
    AlignsAtPowers(pos, 8);
    PadOneNat(pos);
    if cell.I64? {
      IntRoundTrip([], 0, cell.i, plan.Width(schema, slot));
      AlignsAtPowers(pos, plan.Width(schema, slot));
    }
  }

  lemma {:induction false} PadOneNat(pos: nat)
    ensures RoundUp(pos, 1) == pos
  {
  }

  /** Past a typed cell, the reader's position is the writer's. */
  lemma {:induction false} AdvancePastCell(data: Bytes, base: nat, pos: nat, cell: CompactCell, slot: nat,
      schema: Schema, plan: Plan)
    requires Typed(schema, plan) && slot < schema.Count() && CellFits(cell, slot, schema, plan)
    requires !plan.InWord(slot) && CellItem(slot, cell, schema, plan).Ok?
    requires var item := CellItem(slot, cell, schema, plan).value;
             At(data, base + RoundUp(pos, item.align), item.bytes)
    ensures var item := CellItem(slot, cell, schema, plan).value;
            Advance(data, base, pos, slot, schema, plan) == Ok(RoundUp(pos, item.align) + |item.bytes|)
  {
    if cell.Str? && !schema.IsPromoted(slot) {
      AdvancePastStr(data, base, pos, cell, slot, schema, plan);
    } else {
      AdvancePastFixed(data, base, pos, cell, slot, schema, plan);
    }
  }

  lemma {:induction false} AdvancePastStr(data: Bytes, base: nat, pos: nat, cell: CompactCell, slot: nat,
      schema: Schema, plan: Plan)
    requires Typed(schema, plan) && slot < schema.Count() && CellFits(cell, slot, schema, plan)
    requires cell.Str? && !schema.IsPromoted(slot) && !plan.InWord(slot) && CellItem(slot, cell, schema, plan).Ok?
    requires var item := CellItem(slot, cell, schema, plan).value;
             At(data, base + RoundUp(pos, item.align), item.bytes)
    ensures var item := CellItem(slot, cell, schema, plan).value;
            Advance(data, base, pos, slot, schema, plan) == Ok(RoundUp(pos, item.align) + |item.bytes|)
  {
    hide AlignTo, RoundUp, StrCellLen, StrCell, BoolSlots, Le, Plan.Width;
    assert SlotTyped(slot, schema, plan);
    PadOneNat(pos);
    StrCellReads(data, base + pos, cell.s, schema.StrLenPrefix(slot));
  }

  /** A cell of a fixed width is passed whatever bytes it holds. */
  lemma {:induction false} AdvancePastFixed(data: Bytes, base: nat, pos: nat, cell: CompactCell, slot: nat,
      schema: Schema, plan: Plan)
    requires Typed(schema, plan) && slot < schema.Count() && CellFits(cell, slot, schema, plan)
    requires cell.Str? ==> schema.IsPromoted(slot)
    requires !plan.InWord(slot) && CellItem(slot, cell, schema, plan).Ok?
    ensures var item := CellItem(slot, cell, schema, plan).value;
            Advance(data, base, pos, slot, schema, plan) == Ok(RoundUp(pos, item.align) + |item.bytes|)
  {
    hide AlignTo, RoundUp, StrCellLen, BoolSlots, Le, Position, Wrap, FitsSigned, PowerOfTwo;
    assert SlotTyped(slot, schema, plan);
    SmallPowers();
    AlignsAtPowers(pos, 2);
    AlignsAtPowers(pos, 8);
    if cell.I64? {
      SmallWidths(plan.Width(schema, slot));
      AlignsAtPowers(pos, plan.Width(schema, slot));
    }
  }

  lemma {:induction false} SmallWidths(w: nat)
    requires SmallWidth(w)
    ensures PowerOfTwo(w)
  {
    SmallPowers();
  }

  lemma {:induction false} StrCellReads(data: Bytes, off: nat, s: Bytes, prefix: nat)
    requires (prefix == 2 && |s| < U16) || (prefix == 4 && |s| < U32)
    requires At(data, off, StrCell(s, prefix))
    ensures off + prefix + |s| <= |data|
    ensures StrCellLen(data, off, prefix) == Ok(|s|)
    ensures Get(data, off + prefix, |s|) == Some(s)
  {
    var len, pad := Le(|s|, prefix), Zeros((8 - (prefix + |s|) % 8) % 8);
    AtConcat(data, off, len + s, pad);
    AtConcat(data, off, len, s);
    Pow256Values();
    AtLe(data, off, |s|, prefix);
  }

  // ── Reading ───────────────────────────────────────────────────────────────

  /** The typed getter of a column at a resolved offset (`get_i64`, `get_f64`, `get_bool`, `get_str`, `get_keyword`). */
  function ReadAt(data: Bytes, off: nat, slot: nat, schema: Schema): (cell: Option<CompactCell>)
    requires slot < |schema.sigils|
  {
    var sig := schema.sigils[slot];
    if sig == SIGIL_INT || sig == SIGIL_TIME then
      var v :- DecodeInt(data, off, schema.CellWidth(slot)).ToOption();
      if -0x8000_0000_0000_0000 <= v < 0x8000_0000_0000_0000 then Some(if sig == SIGIL_INT then I64(v) else Time(v)) else None
    else if sig == SIGIL_FLOAT then
      if schema.CellWidth(slot) != 8 then None
      else
        var v :- ReadU(data, off, 8);
        if v < U64 then Some(F64(v)) else None
    else if sig == SIGIL_BOOL then
      if off < |data| then Some(Bool(data[off] != 0)) else None
    else if sig == SIGIL_STR then
      if schema.IsPromoted(slot) then
        var idx :- ReadU(data, off, 2);
        if idx < |schema.pool| then Some(Str(schema.pool[idx])) else None
      else
        var prefix := schema.StrLenPrefix(slot);
        var len :- StrCellLen(data, off, prefix).ToOption();
        var s :- Get(data, off + prefix, len);
        Some(Str(s))
    else if sig == SIGIL_KEYWORD then
      var idx :- ReadU(data, off, 2);
      Some(Keyword(idx))
    else None
  }

  /** Where a typed cell's bytes lie, its getter returns the cell. */
  lemma {:induction false} CellRoundTrip(data: Bytes, off: nat, cell: CompactCell, slot: nat, schema: Schema,
      plan: Plan)
    requires Typed(schema, plan) && slot < schema.Count() && CellFits(cell, slot, schema, plan)
    requires !plan.InWord(slot) && CellItem(slot, cell, schema, plan).Ok?
    requires At(data, off, CellItem(slot, cell, schema, plan).value.bytes)
    ensures ReadAt(data, off, slot, schema) == Some(cell)
  {
    hide StrCellLen, StrCell, BoolSlots, Wrap, FitsSigned, Position, Le, ReadLe, DecodeInt, Plan.BoolWordBytes;
    assert SlotTyped(slot, schema, plan);
    Pow256Values();
    match cell
    case I64(v) => IntRoundTrip(data, off, v, plan.Width(schema, slot));
    case Time(t) => IntRoundTrip(data, off, t, 8);
    case F64(bits) => AtLe(data, off, bits, 8);
    case Bool(b) => AtHead(data, off, [if b then 1 else 0], Zeros(7));
    case Str(s) =>
      if schema.IsPromoted(slot) {
        AtLe(data, off, Position(schema.pool, s), 2);
      } else {
        StrCellReads(data, off, s, schema.StrLenPrefix(slot));
      }
    case Keyword(idx) => AtLe(data, off, idx, 2);
    case Null =>
  }
}
