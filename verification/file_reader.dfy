/**
 The reader of a sealed file. It validates the preamble and footer, parses the embedded schema, finds the
 tail index of the layout and, from then on, recomputes the place of every cell from raw bytes.
 */
module FileReader {
  import opened Bytes
  import opened CompactSchema
  import opened SchemaHeader
  import opened Preamble
  import opened Columns
  import opened TailIndex
  import opened TableLayout
  import opened DenseWalk

  datatype Layout = RowLayout | ColumnarLayout | PaxLayout

  /** Where a column lies: the entry of the columnar tail index for its field. */
  datatype Extent = Extent(off: nat, len: nat)

  datatype Reader = Reader(data: Bytes, flags: WireFlags, keys: seq<Bytes>, sigils: Bytes, ext: Option<Schema>,
                           recordCount: nat, tailStart: nat, delta: Option<DeltaLayout>, layout: Layout,
                           extents: seq<Extent>) {
    /** `Reader::slot`: the last of equal keys. */
    function Slot(key: Bytes): (s: Option<nat>)
      ensures s.Some? ==> s.value < |keys| && keys[s.value] == key
    {
      LastIndex(keys, key)
    }
  }

  function LastIndex(keys: seq<Bytes>, key: Bytes): (s: Option<nat>)
    ensures s.Some? ==> s.value < |keys| && keys[s.value] == key
    ensures s.None? <==> key !in keys
  {
    if |keys| == 0 then None
    else if keys[|keys| - 1] == key then Some(|keys| - 1)
    else
      assert key in keys ==> key in keys[..|keys| - 1];
      LastIndex(keys[..|keys| - 1], key)
  }

  // ── Opening ───────────────────────────────────────────────────────────────

  /** `validate_preamble_flags` */
  function ValidateFlags(flags: WireFlags): Option<Error>
  {
    if flags.columnar && flags.pax then Some(InvalidFlags)
    else if (flags.columnar || flags.pax) && !flags.embedded then Some(ParseError)
    else if flags.Compact() && (flags.columnar || flags.pax) then Some(IncompatibleFlags)
    else None
  }

  /** The columnar tail index from entry `i` on. */
  function ReadExtents(data: Bytes, tailPtr: nat, i: nat, extents: seq<Extent>): (r: Result<seq<Extent>>)
    requires i <= |extents| && tailPtr + 20 * |extents| <= |data|
    ensures r.Ok? ==> |r.value| == |extents|
    decreases |extents| - i
  {
    if i == |extents| then Ok(extents)
    else
      var e := tailPtr + i * 20;
      var field := ReadLe(data[e..e + 2]);
      if field >= |extents| then Err(OutOfBounds)
      else
        var extent := Extent(ReadLe(data[e + 4..e + 12]), ReadLe(data[e + 12..e + 20]));
        ReadExtents(data, tailPtr, i + 1, extents[field := extent])
  }

  method ReadColumnExtents(data: Bytes, tailPtr: nat, n: nat) returns (r: Result<seq<Extent>>)
    requires tailPtr + 20 * n <= |data|
    ensures r == ReadExtents(data, tailPtr, 0, NoExtents(n))
  {
    var extents := NoExtents(n);
    for i := 0 to n
      invariant |extents| == n
      invariant ReadExtents(data, tailPtr, 0, NoExtents(n)) == ReadExtents(data, tailPtr, i, extents)
    {
      var e := tailPtr + i * 20;
      var field := ReadLe(data[e..e + 2]);
      if field >= n { return Err(OutOfBounds); }
      extents := extents[field := Extent(ReadLe(data[e + 4..e + 12]), ReadLe(data[e + 12..e + 20]))];
    }
    r := Ok(extents);
  }

  function NoExtents(n: nat): (e: seq<Extent>)
    ensures |e| == n
  {
    seq(n, i => Extent(0, 0))
  }

  datatype Embedded = Embedded(keys: seq<Bytes>, sigils: Bytes, ext: Option<Schema>)

  function ReadSchema(data: Bytes, flags: WireFlags): (r: Result<Embedded>)
    ensures r.Ok? ==> |r.value.sigils| == |r.value.keys|
    ensures r.Ok? && r.value.ext.Some? ==> r.value.ext.value.Shaped() && r.value.ext.value.keys == r.value.keys
  {
    if !flags.embedded then Ok(Embedded([], [], None))
    else if flags.Compact() then
      var ext :- ParseExtended(data, 32, flags);
      Ok(Embedded(ext.schema.keys, ext.schema.sigils, Some(ext.schema)))
    else
      var header :- ParseBasic(data, 32);
      Ok(Embedded(header.keys, header.sigils, None))
  }

  function OpenColumnar(data: Bytes, flags: WireFlags, schema: Embedded): (r: Result<Reader>)
    requires |data| >= 32
    ensures r.Ok? ==> |r.value.extents| == |schema.keys|
  {
    var fo := |data| - 20;
    var tailPtr := ReadLe(data[fo..fo + 8]);
    var n := ReadLe(data[fo + 8..fo + 16]);
    if tailPtr >= fo || tailPtr + |schema.keys| * 20 > fo then Err(OutOfBounds)
    else
      var extents :- ReadExtents(data, tailPtr, 0, NoExtents(|schema.keys|));
      Ok(Reader(data, flags, schema.keys, schema.sigils, None, n, tailPtr, None, ColumnarLayout, extents))
  }

  function OpenPax(data: Bytes, flags: WireFlags, schema: Embedded): Result<Reader>
    requires |data| >= 32
  {
    var fo := |data| - 28;
    var tailPtr := ReadLe(data[fo..fo + 8]);
    var n := ReadLe(data[fo + 8..fo + 16]);
    Ok(Reader(data, flags, schema.keys, schema.sigils, None, n, tailPtr, None, PaxLayout, []))
  }

  function OpenRow(data: Bytes, flags: WireFlags, schema: Embedded): Result<Reader>
    requires |data| >= 32
  {
    var preambleTail := ReadLe(data[16..24]);
    if preambleTail == 0 && |data| < 44 then Err(OutOfBounds)
    else
      var tailPtr := if preambleTail == 0 then ReadLe(data[|data| - 12..|data| - 4]) else preambleTail;
      if tailPtr > |data| - 4 then Err(OutOfBounds)
      else if flags.delta then
        var delta :- ParseDeltaTail(data, tailPtr);
        Ok(Reader(data, flags, schema.keys, schema.sigils, schema.ext, delta.recordCount, tailPtr, Some(delta), RowLayout, []))
      else
        var n := ReadLe(data[tailPtr..tailPtr + 4]);
        Ok(Reader(data, flags, schema.keys, schema.sigils, schema.ext, n, tailPtr + 4, None, RowLayout, []))
  }

  /** `Reader::new` */
  function Open(data: Bytes): Result<Reader>
  {
    if |data| < 32 then Err(OutOfBounds)
    else if ReadLe(data[0..4]) != MAGIC_FILE then Err(BadMagic)
    else if ReadLe(data[|data| - 4..]) != MAGIC_FOOTER then Err(BadMagic)
    else
      var flags := FlagsOf(ReadLe(data[6..8]));
      if ValidateFlags(flags).Some? then Err(ValidateFlags(flags).value)
      else
        var schema :- ReadSchema(data, flags);
        if flags.columnar then OpenColumnar(data, flags, schema)
        else if flags.pax then OpenPax(data, flags, schema)
        else OpenRow(data, flags, schema)
  }

  // ── Columnar cells ────────────────────────────────────────────────────────

  /** The bytes of a column, as its tail entry bounds them. */
  function ColumnSector(r: Reader, slot: nat): Result<Bytes>
  {
    if slot >= |r.extents| then Err(OutOfBounds)
    else
      var x := r.extents[slot];
      if x.off + x.len > |r.data| then Err(OutOfBounds) else Ok(r.data[x.off..x.off + x.len])
  }

  // ── PAX pages ─────────────────────────────────────────────────────────────

  /** `page_count`, from the footer. */
  function PageCount(r: Reader): nat
  {
    if r.layout != PaxLayout || |r.data| < 28 || r.tailStart > |r.data| - 4 then 0
    else ReadLe(r.data[|r.data| - 12..|r.data| - 8])
  }

  function PageStart(r: Reader, page: nat): Option<nat> { ReadU(r.data, r.tailStart + page * 28 + 4, 8) }

  function PageRecords(r: Reader, page: nat): Option<nat> { ReadU(r.data, r.tailStart + page * 28 + 12, 4) }

  /** A page and the record's index in it. */
  datatype Place = Place(page: nat, local: nat)

  /** The binary search between two page numbers. */
  function LocateBetween(r: Reader, rec: nat, lo: nat, hi: int): (p: Option<Place>)
    decreases hi - lo + 1
  {
    if lo > hi then None
    else
      var mid := (lo + hi) / 2;
      var start :- PageStart(r, mid);
      var count :- PageRecords(r, mid);
      if rec < start then LocateBetween(r, rec, lo, mid - 1)
      else if rec >= start + count then LocateBetween(r, rec, mid + 1, hi)
      else Some(Place(mid, rec - start))
  }

  /** `saturating_sub(1) as i32` */
  function LastPage(r: Reader): int
  {
    var last := if PageCount(r) == 0 then 0 else PageCount(r) - 1;
    Signed(last % U32, 4)
  }

  function Locate(r: Reader, rec: nat): Option<Place>
  {
    LocateBetween(r, rec, 0, LastPage(r))
  }

  method PaxLocateRecord(r: Reader, rec: nat) returns (p: Option<Place>)
    ensures p == Locate(r, rec)
  {
    hide PageStart, PageRecords, LastPage;
    var lo: nat, hi := 0, LastPage(r);
    while lo <= hi
      invariant 0 <= lo
      invariant Locate(r, rec) == LocateBetween(r, rec, lo, hi)
      decreases hi - lo + 1
    {
      var mid := (lo + hi) / 2;
      var start := PageStart(r, mid);
      if start.None? { return None; }
      var count := PageRecords(r, mid);
      if count.None? { return None; }
      if rec < start.value {
        hi := mid - 1;
      } else if rec >= start.value + count.value {
        lo := mid + 1;
      } else {
        return Some(Place(mid, rec - start.value));
      }
    }
    p := None;
  }

  /** The start of column `slot` in a page body: the columns before it are measured one by one. */
  function SkipColumns(r: Reader, body: nat, n: nat, fi: nat, slot: nat): (p: Result<nat>)
    requires fi <= slot
    decreases slot - fi
  {
    if fi == slot then Ok(body)
    else if body > |r.data| then Err(OutOfBounds)
    else
      var len :- SectorLen(r.data[body..], n, SigilAt(r.sigils, fi));
      SkipColumns(r, body + len, n, fi + 1, slot)
  }

  /** `pax_column_sector` */
  function PaxSector(r: Reader, page: nat, slot: nat): Result<Bytes>
  {
    match ReadU(r.data, r.tailStart + page * 28 + 16, 8)
    case None => Err(OutOfBounds)
    case Some(off) =>
      if off + 24 > |r.data| then Err(OutOfBounds)
      else if ReadLe(r.data[off..off + 4]) != MAGIC_PAGE then Err(InvalidPageMagic)
      else
        var n := ReadLe(r.data[off + 16..off + 20]);
        var fields := ReadLe(r.data[off + 20..off + 22]);
        if slot >= fields then Err(OutOfBounds)
        else
          var body :- SkipColumns(r, off + 24, n, 0, slot);
          if body > |r.data| then Err(OutOfBounds)
          else
            var len :- SectorLen(r.data[body..], n, SigilAt(r.sigils, slot));
            if body + len > |r.data| then Err(OutOfBounds) else Ok(r.data[body..body + len])
  }

  method PaxColumnSector(r: Reader, page: nat, slot: nat) returns (s: Result<Bytes>)
    ensures s == PaxSector(r, page, slot)
  {
    hide SectorLen, SkipColumns, ReadLe, ReadU, SigilAt;
    var off := ReadU(r.data, r.tailStart + page * 28 + 16, 8);
    if off.None? { return Err(OutOfBounds); }
    if off.value + 24 > |r.data| { return Err(OutOfBounds); }
    if ReadLe(r.data[off.value..off.value + 4]) != MAGIC_PAGE { return Err(InvalidPageMagic); }
    var n := ReadLe(r.data[off.value + 16..off.value + 20]);
    if slot >= ReadLe(r.data[off.value + 20..off.value + 22]) { return Err(OutOfBounds); }
    var body := SkipColumnsLoop(r, off.value + 24, n, slot);
    if body.Err? { return Err(body.error); }
    if body.value > |r.data| { return Err(OutOfBounds); }
    var len := SectorLen(r.data[body.value..], n, SigilAt(r.sigils, slot));
    if len.Err? { return Err(len.error); }
    if body.value + len.value > |r.data| { return Err(OutOfBounds); }
    s := Ok(r.data[body.value..body.value + len.value]);
  }

  method SkipColumnsLoop(r: Reader, start: nat, n: nat, slot: nat) returns (p: Result<nat>)
    ensures p == SkipColumns(r, start, n, 0, slot)
  {
    hide SectorLen, SigilAt;
    var body: nat := start;
    for fi := 0 to slot
      invariant 0 <= body
      invariant SkipColumns(r, start, n, 0, slot) == SkipColumns(r, body, n, fi, slot)
    {
      if body > |r.data| { return Err(OutOfBounds); }
      var len := SectorLen(r.data[body..], n, SigilAt(r.sigils, fi));
      if len.Err? { return Err(len.error); }
      body := body + len.value;
    }
    p := Ok(body);
  }

  // ── Cells of a columnar or PAX file ───────────────────────────────────────

  /** A column's sector, the number of its cells, and the index of a record's cell in it. */
  datatype Spot = Spot(sector: Bytes, count: nat, index: nat)

  function SpotOf(r: Reader, rec: nat, slot: nat): (spot: Option<Spot>)
    requires r.layout != RowLayout && rec < r.recordCount
    ensures spot.Some? ==> spot.value.index < spot.value.count
  {
    if r.layout == ColumnarLayout then
      var sector :- ColumnSector(r, slot).ToOption();
      Some(Spot(sector, r.recordCount, rec))
    else
      var place :- Locate(r, rec);
      var sector :- PaxSector(r, place.page, slot).ToOption();
      var count :- PageRecords(r, place.page);
      if place.local < count then Some(Spot(sector, count, place.local)) else None
  }

  /** The eight bytes that `get_i64` and `get_f64` decode. */
  function GetRaw(r: Reader, rec: nat, slot: nat): (raw: Option<Bytes>)
    requires r.layout != RowLayout && rec < r.recordCount
    ensures raw.Some? ==> |raw.value| == 8
  {
    if slot >= |r.sigils| || IsVar(r.sigils[slot]) then None
    else
      var spot :- SpotOf(r, rec, slot);
      var parts :- FixedParts(spot.sector, spot.count).ToOption();
      RecordInBitmap(spot.count, spot.index);
      RawAt(parts, spot.index)
  }

  /** `get_bool` */
  function GetBool(r: Reader, rec: nat, slot: nat): Option<bool>
    requires r.layout != RowLayout && rec < r.recordCount
  {
    if slot >= |r.sigils| || IsVar(r.sigils[slot]) then None
    else
      var spot :- SpotOf(r, rec, slot);
      var parts :- FixedParts(spot.sector, spot.count).ToOption();
      RecordInBitmap(spot.count, spot.index);
      if !ColBit(parts.bitmap, spot.index) || spot.index * 8 >= |parts.values| then None
      else Some(parts.values[spot.index * 8] != 0)
  }

  /** `get_str`, of text that is valid UTF-8. */
  function GetText(r: Reader, rec: nat, slot: nat): Option<Bytes>
    requires r.layout != RowLayout && rec < r.recordCount
  {
    if slot >= |r.sigils| || r.sigils[slot] != SIGIL_STR then None
    else
      var spot :- SpotOf(r, rec, slot);
      var parts :- VarPartsOf(spot.sector, spot.count).ToOption();
      RecordInBitmap(spot.count, spot.index);
      if !ColBit(parts.bitmap, spot.index) then None else VarAt(parts.offsets, parts.values, spot.index)
  }

  /** The typed getter of a slot, chosen by the column's sigil; times are read as integers. */
  function GetTyped(r: Reader, rec: nat, slot: nat): Option<Cell>
    requires r.layout != RowLayout && rec < r.recordCount && slot < |r.sigils|
  {
    var sigil := r.sigils[slot];
    if sigil == SIGIL_STR then
      var text :- GetText(r, rec, slot);
      Some(Str(text))
    else if sigil == SIGIL_BOOL then
      var b :- GetBool(r, rec, slot);
      Some(Bool(b))
    else
      var raw :- GetRaw(r, rec, slot);
      Some(FromRaw(raw, sigil))
  }

  /** The value of eight bytes under a sigil. */
  function FromRaw(raw: Bytes, sigil: Byte): Cell
    requires |raw| == 8
  {
    Pow256Values();
    if sigil == SIGIL_FLOAT then F64(ReadLe(raw))
    else if sigil == SIGIL_TIME then Time(ReadI64(raw))
    else I64(ReadI64(raw))
  }
}
