/** What the reader gets back from a columnar file: every cell of the table, and nothing for an absent one. */
module ColumnarReads {
  import opened Bytes
  import opened CompactSchema
  import opened SchemaHeader
  import opened Preamble
  import opened Columns
  import opened TailIndex
  import opened TableLayout
  import opened FileReader

  // ── What a table holds, whatever its layout ───────────────────────────────

  /** The eight bytes of a fixed-width cell of the table. */
  function TableRaw(rows: seq<Row>, sigil: Byte, rec: nat, slot: nat): Option<Bytes>
    requires rec < |rows|
  {
    StoredBytes(CellAt(rows[rec], slot), sigil)
  }

  function TableBool(rows: seq<Row>, sigil: Byte, rec: nat, slot: nat): Option<bool>
    requires rec < |rows|
  {
    var raw :- TableRaw(rows, sigil, rec, slot);
    Some(|raw| > 0 && raw[0] != 0)
  }

  function TableText(rows: seq<Row>, sigil: Byte, rec: nat, slot: nat): Option<Bytes>
    requires rec < |rows|
  {
    StoredText(CellAt(rows[rec], slot), sigil)
  }

  /** A sector that encodes a column gives back the column's cells through every getter. */
  ghost predicate SpotHolds(spot: Spot, col: seq<Cell>, sigil: Byte)
  {
    Column(col, sigil) == Ok(spot.sector) && spot.count == |col| && spot.index < |col|
  }

  lemma {:induction false} SpotReads(r: Reader, rec: nat, slot: nat, rows: seq<Row>, row: nat, col: seq<Cell>)
    requires r.layout != RowLayout && rec < r.recordCount && slot < |r.sigils| && row < |rows|
    requires SpotOf(r, rec, slot).Some? && SpotHolds(SpotOf(r, rec, slot).value, col, r.sigils[slot])
    requires col[SpotOf(r, rec, slot).value.index] == CellAt(rows[row], slot)
    ensures GetRaw(r, rec, slot) == TableRaw(rows, r.sigils[slot], row, slot)
    ensures GetBool(r, rec, slot) == TableBool(rows, r.sigils[slot], row, slot)
    ensures GetText(r, rec, slot) == TableText(rows, r.sigils[slot], row, slot)
  {
    hide SpotOf, BitmapLen, Column, FixedBytes, VarAt, ColBit, FixedParts, VarPartsOf, CellAt;
    var spot, sigil := SpotOf(r, rec, slot).value, r.sigils[slot];
    RecordInBitmap(spot.count, spot.index);
    if IsVar(sigil) {
      VarReads(col, sigil, spot.index);
    } else {
      FixedReads(col, sigil, spot.index);
      FixedPartsLen(spot.sector, spot.count);
    }
  }

  lemma {:induction false} FixedPartsLen(sector: Bytes, n: nat)
    ensures FixedParts(sector, n).Ok? ==> |FixedParts(sector, n).value.values| == n * 8
  {
  }

  // ── The file, part by part ────────────────────────────────────────────────

  lemma {:induction false} KnownSigilsOf(rows: seq<Row>, n: nat)
    ensures KnownSigils(n, SigilsForKeys(n, rows)) == SigilsForKeys(n, rows)
  {
  }

  lemma {:induction false} ColumnarParts(header: Bytes, sectors: seq<Bytes>, n: nat, hash: Hash)
    ensures var file, base := ColumnarFile(header, sectors, n, hash), 32 + |header|;
            var tailPtr := base + |Join(sectors)|;
            && |file| == tailPtr + 20 * |sectors| + 20
            && At(file, 0, PreambleBytes(VERSION, ColumnarFlags(), hash(header), tailPtr))
            && At(file, 32, header) && At(file, base, Join(sectors))
            && At(file, tailPtr, ColumnEntries(sectors, base))
            && At(file, tailPtr + 20 * |sectors|, ColumnarFooter(tailPtr, n))
  {
    hide PreambleBytes, Join, ColumnEntries, ColumnarFooter;
    var file, base := ColumnarFile(header, sectors, n, hash), 32 + |header|;
    var tailPtr := base + |Join(sectors)|;
    var a, c, d, e := PreambleBytes(VERSION, ColumnarFlags(), hash(header), tailPtr), Join(sectors), ColumnEntries(sectors, base), ColumnarFooter(tailPtr, n);
    assert At(file, 0, a + header + c + d + e);
    AtConcat(file, 0, a + header + c + d, e);
    AtConcat(file, 0, a + header + c, d);
    AtConcat(file, 0, a + header, c);
    AtConcat(file, 0, a, header);
  }

  lemma {:induction false} ColumnarFooterReads(data: Bytes, off: nat, tailPtr: nat, n: nat)
    requires At(data, off, ColumnarFooter(tailPtr, n)) && tailPtr < U64 && n < U64
    ensures off + 20 <= |data| && ReadLe(data[off..off + 8]) == tailPtr && ReadLe(data[off + 8..off + 16]) == n
    ensures ReadLe(data[off + 16..off + 20]) == MAGIC_FOOTER
  {
    hide Le;
    Pow256Values();
    AtConcat(data, off, Le(tailPtr, 8) + Le(n, 8), Le(MAGIC_FOOTER, 4));
    AtConcat(data, off, Le(tailPtr, 8), Le(n, 8));
    AtLe(data, off, tailPtr, 8);
    AtLe(data, off + 8, n, 8);
    AtLe(data, off + 16, MAGIC_FOOTER, 4);
  }

  lemma {:induction false} EntryAt(data: Bytes, off: nat, sectors: seq<Bytes>, base: nat, k: nat)
    requires At(data, off, ColumnEntries(sectors, base)) && k < |sectors|
    ensures At(data, off + 20 * k, ColumnEntry(k, base + |Join(sectors[..k])|, |sectors[k]|))
    decreases |sectors|
  {
    hide Join, ColumnEntry;
    var last := |sectors| - 1;
    AtConcat(data, off, ColumnEntries(sectors[..last], base), ColumnEntry(last, base + |Join(sectors[..last])|, |sectors[last]|));
    if k < last {
      EntryAt(data, off, sectors[..last], base, k);
      assert sectors[..last][..k] == sectors[..k];
    }
  }

  lemma {:induction false} EntryReads(data: Bytes, e: nat, field: nat, off: nat, len: nat)
    requires At(data, e, ColumnEntry(field, off, len)) && field < U16 && off < U64 && len < U64
    ensures e + 20 <= |data| && ReadLe(data[e..e + 2]) == field
    ensures ReadLe(data[e + 4..e + 12]) == off && ReadLe(data[e + 12..e + 20]) == len
  {
    hide Le;
    Pow256Values();
    AtConcat(data, e, Le(field, 2) + Le(0, 2) + Le(off, 8), Le(len, 8));
    AtConcat(data, e, Le(field, 2) + Le(0, 2), Le(off, 8));
    AtConcat(data, e, Le(field, 2), Le(0, 2));
    AtLe(data, e, field, 2);
    AtLe(data, e + 4, off, 8);
    AtLe(data, e + 12, len, 8);
  }

  /** The tail index names every column's own bytes. */
  lemma {:induction false} ExtentsRead(data: Bytes, tailPtr: nat, sectors: seq<Bytes>, base: nat, i: nat,
      extents: seq<Extent>, k: nat)
    requires At(data, tailPtr, ColumnEntries(sectors, base)) && |sectors| < U16 && base + |Join(sectors)| < U64
    requires i <= |extents| == |sectors| && k < |sectors| && tailPtr + 20 * |sectors| <= |data|
    requires At(data, base, Join(sectors))
    requires k < i ==> extents[k] == Extent(base + |Join(sectors[..k])|, |sectors[k]|)
    ensures ReadExtents(data, tailPtr, i, extents).Ok?
    ensures ReadExtents(data, tailPtr, i, extents).value[k] == Extent(base + |Join(sectors[..k])|, |sectors[k]|)
    decreases |sectors| - i
  {
    hide Join, ColumnEntries, ReadLe, At;
    if i < |sectors| {
      EntryAt(data, tailPtr, sectors, base, i);
      JoinAt(data, base, sectors, i);
      EntryReads(data, tailPtr + 20 * i, i, base + |Join(sectors[..i])|, |sectors[i]|);
      var next := extents[i := Extent(base + |Join(sectors[..i])|, |sectors[i]|)];
      ExtentsRead(data, tailPtr, sectors, base, i + 1, next, k);
    }
  }

  // ── Main result ───────────────────────────────────────────────────────────

  /** A columnar file that its fields can describe. */
  ghost predicate ColumnarFits(keys: seq<Bytes>, rows: seq<Row>, hash: Hash)
  {
    && |keys| < U16 && NulFree(keys) && |rows| < U64
    && Columnar(keys, rows, hash).Ok? && |Columnar(keys, rows, hash).value| < U64
  }

  function ColumnarReader(keys: seq<Bytes>, rows: seq<Row>, hash: Hash): Reader
    requires ColumnarFits(keys, rows, hash) && Open(Columnar(keys, rows, hash).value).Ok?
  {
    Open(Columnar(keys, rows, hash).value).value
  }

  lemma {:induction false} ColumnarHead(keys: seq<Bytes>, rows: seq<Row>, hash: Hash)
    requires ColumnarFits(keys, rows, hash)
    ensures var data := Columnar(keys, rows, hash).value;
            && |data| >= 32 && ReadLe(data[0..4]) == MAGIC_FILE && ReadLe(data[|data| - 4..]) == MAGIC_FOOTER
            && FlagsOf(ReadLe(data[6..8])) == ColumnarFlags()
            && ReadSchema(data, ColumnarFlags()) == Ok(Embedded(keys, SigilsForKeys(|keys|, rows), None))
            && Open(data) == OpenColumnar(data, ColumnarFlags(), Embedded(keys, SigilsForKeys(|keys|, rows), None))
  {
    hide PreambleBytes, Join, ColumnEntries, ColumnarFooter, BasicHeader, ParseBasic, FlagsOf, WireFlags.Value,
         SigilsForKeys, NulFree, At, Sectors, OpenColumnar;
    var data, sigils := Columnar(keys, rows, hash).value, SigilsForKeys(|keys|, rows);
    var header, sectors := BasicHeader(keys, sigils), Sectors(rows, sigils, |keys|).value;
    var tailPtr := 32 + |header| + |Join(sectors)|;
    ColumnarParts(header, sectors, |rows|, hash);
    PreambleReads(data, VERSION, ColumnarFlags(), hash(header), tailPtr);
    ColumnarFooterReads(data, tailPtr + 20 * |sectors|, tailPtr, |rows|);
    assert data[|data| - 4..] == data[tailPtr + 20 * |sectors| + 16..tailPtr + 20 * |sectors| + 20];
    BasicRoundTrip(data, 32, keys, sigils);
    KnownSigilsOf(rows, |keys|);
  }

  /** Opening a columnar file of any sectors: it fails exactly when there are none. */
  lemma {:induction false} OpensSectors(header: Bytes, sectors: seq<Bytes>, n: nat, hash: Hash, schema: Embedded)
    requires |schema.keys| == |sectors| < U16 && n < U64 && |ColumnarFile(header, sectors, n, hash)| < U64
    ensures var data, flags := ColumnarFile(header, sectors, n, hash), ColumnarFlags();
            && |data| >= 32 && (OpenColumnar(data, flags, schema).Ok? <==> |sectors| > 0)
            && (|sectors| > 0 ==>
                  OpenColumnar(data, flags, schema).value ==
                  Reader(data, flags, schema.keys, schema.sigils, None, n, 32 + |header| + |Join(sectors)|, None, ColumnarLayout,
                         OpenColumnar(data, flags, schema).value.extents))
  {
    hide PreambleBytes, Join, ColumnEntries, ColumnarFooter, ReadLe, At;
    var data, base := ColumnarFile(header, sectors, n, hash), 32 + |header|;
    var tailPtr := base + |Join(sectors)|;
    ColumnarParts(header, sectors, n, hash);
    ColumnarFooterReads(data, tailPtr + 20 * |sectors|, tailPtr, n);
    if |sectors| > 0 {
      ExtentsRead(data, tailPtr, sectors, base, 0, NoExtents(|sectors|), 0);
    }
  }

  lemma {:induction false} SectorOf(header: Bytes, sectors: seq<Bytes>, n: nat, hash: Hash, schema: Embedded, k: nat)
    requires |schema.keys| == |sectors| < U16 && n < U64 && |ColumnarFile(header, sectors, n, hash)| < U64 && k < |sectors|
    requires |ColumnarFile(header, sectors, n, hash)| >= 32
    requires OpenColumnar(ColumnarFile(header, sectors, n, hash), ColumnarFlags(), schema).Ok?
    ensures ColumnSector(OpenColumnar(ColumnarFile(header, sectors, n, hash), ColumnarFlags(), schema).value, k) == Ok(sectors[k])
  {
    hide PreambleBytes, Join, ColumnEntries, ColumnarFooter, ReadLe, At, ReadExtents;
    var data, base := ColumnarFile(header, sectors, n, hash), 32 + |header|;
    var tailPtr := base + |Join(sectors)|;
    ColumnarParts(header, sectors, n, hash);
    ColumnarFooterReads(data, tailPtr + 20 * |sectors|, tailPtr, n);
    ExtentsRead(data, tailPtr, sectors, base, 0, NoExtents(|sectors|), k);
    JoinAt(data, base, sectors, k);
    SliceAt(data, base + |Join(sectors[..k])|, sectors[k]);
  }

  /** The file opens exactly when it has a column: an empty tail index is taken for a corrupt one. */
  lemma {:induction false} ColumnarOpens(keys: seq<Bytes>, rows: seq<Row>, hash: Hash)
    requires ColumnarFits(keys, rows, hash)
    ensures Open(Columnar(keys, rows, hash).value).Ok? <==> |keys| > 0
    ensures |keys| > 0 ==>
              var r := ColumnarReader(keys, rows, hash);
              && r.layout == ColumnarLayout && r.keys == keys && r.sigils == SigilsForKeys(|keys|, rows)
              && r.recordCount == |rows|
  {
    hide BasicHeader, SigilForKey, NulFree, Sectors, Open, ColumnarFile, OpenColumnar;
    var sigils := SigilsForKeys(|keys|, rows);
    ColumnarHead(keys, rows, hash);
    OpensSectors(BasicHeader(keys, sigils), Sectors(rows, sigils, |keys|).value, |rows|, hash, Embedded(keys, sigils, None));
  }

  lemma {:induction false} ColumnFound(keys: seq<Bytes>, rows: seq<Row>, hash: Hash, k: nat)
    requires ColumnarFits(keys, rows, hash) && Open(Columnar(keys, rows, hash).value).Ok? && k < |keys|
    ensures var sector := ColumnSector(ColumnarReader(keys, rows, hash), k);
            sector.Ok? && sector == Column(ColumnOf(rows, k), SigilForKey(rows, k))
  {
    hide BasicHeader, SigilForKey, NulFree, Sectors, Open, ColumnarFile, OpenColumnar, ColumnSector, Column;
    var sigils := SigilsForKeys(|keys|, rows);
    ColumnarHead(keys, rows, hash);
    SectorOf(BasicHeader(keys, sigils), Sectors(rows, sigils, |keys|).value, |rows|, hash, Embedded(keys, sigils, None), k);
    SectorIs(rows, sigils, |keys|, k);
  }

  lemma {:induction false} SliceAt(data: Bytes, off: nat, s: Bytes)
    requires At(data, off, s)
    ensures off + |s| <= |data| && data[off..off + |s|] == s
  {
  }

  /** Every getter of a columnar reader returns what the table holds. */
  lemma {:induction false} ColumnarRoundTrip(keys: seq<Bytes>, rows: seq<Row>, hash: Hash, rec: nat, slot: nat)
    requires ColumnarFits(keys, rows, hash) && slot < |keys| && rec < |rows|
    ensures Open(Columnar(keys, rows, hash).value).Ok?
    ensures var r := ColumnarReader(keys, rows, hash);
            && r.layout == ColumnarLayout && r.recordCount == |rows| && r.keys == keys
            && GetRaw(r, rec, slot) == TableRaw(rows, SigilForKey(rows, slot), rec, slot)
            && GetBool(r, rec, slot) == TableBool(rows, SigilForKey(rows, slot), rec, slot)
            && GetText(r, rec, slot) == TableText(rows, SigilForKey(rows, slot), rec, slot)
  {
    hide Open, Columnar, SigilForKey, NulFree, Column, GetRaw, GetBool, GetText, ColumnSector, CellAt;
    ColumnarOpens(keys, rows, hash);
    var r := ColumnarReader(keys, rows, hash);
    ColumnFound(keys, rows, hash, slot);
    SpotReads(r, rec, slot, rows, rec, ColumnOf(rows, slot));
  }
}
