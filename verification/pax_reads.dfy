/**
 What the reader gets back from a PAX file, however its rows were grouped into pages: the binary search
 finds the page of every record, the walk over its columns finds the sector, and the sector holds the cell.
 */
module PaxReads {
  import opened Bytes
  import opened CompactSchema
  import opened SchemaHeader
  import opened Preamble
  import opened Columns
  import opened TailIndex
  import opened TableLayout
  import opened FileReader
  import opened ColumnarReads

  // ── The file, part by part ────────────────────────────────────────────────

  lemma {:induction false} PaxParts(header: Bytes, groups: seq<seq<Row>>, pages: seq<Bytes>, pageSize: nat, hash: Hash)
    requires |pages| == |groups|
    ensures var file, base := PaxFile(header, groups, pages, pageSize, hash), 32 + |header|;
            var tailPtr := base + |Join(pages)|;
            && |file| == tailPtr + 28 * |groups| + 28
            && At(file, 0, PreambleBytes(VERSION, PaxFlags(), hash(header), tailPtr))
            && At(file, 32, header) && At(file, base, Join(pages))
            && At(file, tailPtr, PageEntries(groups, pages, base))
            && At(file, tailPtr + 28 * |groups|, PaxFooter(tailPtr, RowCount(groups), |pages|, pageSize))
  {
    hide PreambleBytes, Join, PageEntries, PaxFooter, RowCount;
    var file, base := PaxFile(header, groups, pages, pageSize, hash), 32 + |header|;
    var tailPtr := base + |Join(pages)|;
    var a, c, d, e := PreambleBytes(VERSION, PaxFlags(), hash(header), tailPtr), Join(pages), PageEntries(groups, pages, base),
      PaxFooter(tailPtr, RowCount(groups), |pages|, pageSize);
    assert At(file, 0, a + header + c + d + e);
    AtConcat(file, 0, a + header + c + d, e);
    AtConcat(file, 0, a + header + c, d);
    AtConcat(file, 0, a + header, c);
    AtConcat(file, 0, a, header);
  }

  lemma {:induction false} PaxFooterReads(data: Bytes, off: nat, tailPtr: nat, n: nat, pages: nat, pageSize: nat)
    requires At(data, off, PaxFooter(tailPtr, n, pages, pageSize)) && tailPtr < U64 && n < U64 && pages < U32
    ensures off + 28 <= |data| && ReadLe(data[off..off + 8]) == tailPtr && ReadLe(data[off + 8..off + 16]) == n
    ensures ReadLe(data[off + 16..off + 20]) == pages && ReadLe(data[off + 24..off + 28]) == MAGIC_FOOTER
  {
    hide Le;
    Pow256Values();
    AtConcat(data, off, Le(tailPtr, 8) + Le(n, 8) + Le(pages, 4) + Le(pageSize, 4), Le(MAGIC_FOOTER, 4));
    AtConcat(data, off, Le(tailPtr, 8) + Le(n, 8) + Le(pages, 4), Le(pageSize, 4));
    AtConcat(data, off, Le(tailPtr, 8) + Le(n, 8), Le(pages, 4));
    AtConcat(data, off, Le(tailPtr, 8), Le(n, 8));
    AtLe(data, off, tailPtr, 8);
    AtLe(data, off + 8, n, 8);
    AtLe(data, off + 16, pages, 4);
    AtLe(data, off + 24, MAGIC_FOOTER, 4);
  }

  lemma {:induction false} PageEntryAt(data: Bytes, off: nat, groups: seq<seq<Row>>, pages: seq<Bytes>, base: nat,
      k: nat)
    requires |pages| == |groups| && At(data, off, PageEntries(groups, pages, base)) && k < |groups|
    ensures At(data, off + 28 * k, PageEntry(k, RowCount(groups[..k]), |groups[k]|, base + |Join(pages[..k])|, |pages[k]|))
    decreases |groups|
  {
    hide Join, PageEntry, RowCount;
    var last := |groups| - 1;
    AtConcat(data, off, PageEntries(groups[..last], pages[..last], base),
             PageEntry(last, RowCount(groups[..last]), |groups[last]|, base + |Join(pages[..last])|, |pages[last]|));
    if k < last {
      PageEntryAt(data, off, groups[..last], pages[..last], base, k);
      assert groups[..last][..k] == groups[..k] && pages[..last][..k] == pages[..k];
    }
  }

  lemma {:induction false} PageEntryReads(data: Bytes, e: nat, index: nat, start: nat, count: nat, off: nat, len: nat)
    requires At(data, e, PageEntry(index, start, count, off, len)) && start < U64 && count < U32 && off < U64
    ensures ReadU(data, e + 4, 8) == Some(start) && ReadU(data, e + 12, 4) == Some(count) && ReadU(data, e + 16, 8) == Some(off)
  {
    hide Le, ReadU;
    Pow256Values();
    AtConcat(data, e, Le(index, 4) + Le(start, 8) + Le(count, 4) + Le(off, 8), Le(len, 4));
    AtConcat(data, e, Le(index, 4) + Le(start, 8) + Le(count, 4), Le(off, 8));
    AtConcat(data, e, Le(index, 4) + Le(start, 8), Le(count, 4));
    AtConcat(data, e, Le(index, 4), Le(start, 8));
    AtLe(data, e + 4, start, 8);
    AtLe(data, e + 12, count, 4);
    AtLe(data, e + 16, off, 8);
  }

  lemma {:induction false} PageReads(data: Bytes, p: nat, index: nat, start: nat, count: nat, fields: nat,
      sectors: seq<Bytes>)
    requires At(data, p, PageBytes(index, start, count, fields, sectors)) && count < U32 && fields < U16
    ensures p + 24 <= |data| && ReadLe(data[p..p + 4]) == MAGIC_PAGE
    ensures ReadLe(data[p + 16..p + 20]) == count && ReadLe(data[p + 20..p + 22]) == fields
    ensures At(data, p + 24, Join(sectors)) && At(data, p + 24 + |Join(sectors)|, Le(28 + |Join(sectors)|, 4))
  {
    hide Le, Join;
    Pow256Values();
    var a, b, c, d, e := Le(MAGIC_PAGE, 4), Le(index, 4), Le(start, 8), Le(count, 4), Le(fields, 2);
    var head, body, len := PageHeader(index, start, count, fields), Join(sectors), Le(28 + |Join(sectors)|, 4);
    AtConcat(data, p, head + body + len, Zeros(RoundUp(28 + |body|, 8) - (28 + |body|)));
    AtConcat(data, p, head + body, len);
    AtConcat(data, p, head, body);
    AtConcat(data, p, a + b + c + d + e, Le(0, 2));
    AtConcat(data, p, a + b + c + d, e);
    AtConcat(data, p, a + b + c, d);
    AtConcat(data, p, a + b, c);
    AtConcat(data, p, a, b);
    AtLe(data, p, MAGIC_PAGE, 4);
    AtLe(data, p + 16, count, 4);
    AtLe(data, p + 20, fields, 2);
  }

  // ── Rows and groups ───────────────────────────────────────────────────────

  lemma {:induction false} RowCountPrefix(groups: seq<seq<Row>>, k: nat)
    requires k <= |groups|
    ensures RowCount(groups[..k]) <= RowCount(groups)
    decreases |groups| - k
  {
    if k < |groups| {
      RowCountStep(groups, k);
      RowCountPrefix(groups, k + 1);
    } else {
      assert groups[..k] == groups;
    }
  }

  lemma {:induction false} RowCountMono(groups: seq<seq<Row>>, j: nat, k: nat)
    requires j <= k <= |groups|
    ensures RowCount(groups[..j]) <= RowCount(groups[..k]) <= RowCount(groups)
  {
    RowCountPrefix(groups, k);
    RowCountPrefix(groups[..k], j);
    assert groups[..k][..j] == groups[..j];
  }

  lemma {:induction false} RowCountStep(groups: seq<seq<Row>>, k: nat)
    requires k < |groups|
    ensures RowCount(groups[..k + 1]) == RowCount(groups[..k]) + |groups[k]|
    ensures Flatten(groups[..k + 1]) == Flatten(groups[..k]) + groups[k]
  {
    assert groups[..k + 1][..k] == groups[..k];
  }

  /** The group that holds a record. */
  function GroupOf(groups: seq<seq<Row>>, rec: nat): (k: nat)
    requires rec < RowCount(groups)
    ensures k < |groups| && RowCount(groups[..k]) <= rec < RowCount(groups[..k]) + |groups[k]|
  {
    var last := |groups| - 1;
    if rec >= RowCount(groups[..last]) then last
    else
      var k := GroupOf(groups[..last], rec);
      assert groups[..last][..k] == groups[..k];
      k
  }

  lemma {:induction false} FlattenPrefix(groups: seq<seq<Row>>, k: nat)
    requires k <= |groups|
    ensures Flatten(groups[..k]) <= Flatten(groups)
    decreases |groups| - k
  {
    if k < |groups| {
      RowCountStep(groups, k);
      FlattenPrefix(groups, k + 1);
    } else {
      assert groups[..k] == groups;
    }
  }

  lemma {:induction false} FlattenAt(groups: seq<seq<Row>>, rec: nat)
    requires rec < RowCount(groups)
    ensures var k := GroupOf(groups, rec);
            Flatten(groups)[rec] == groups[k][rec - RowCount(groups[..k])]
  {
    var k := GroupOf(groups, rec);
    RowCountStep(groups, k);
    FlattenPrefix(groups, k + 1);
  }

  // ── Finding a record's page ───────────────────────────────────────────────

  /** Every tail entry of the reader's file describes the page of its group. */
  ghost predicate Indexed(r: Reader, groups: seq<seq<Row>>)
  {
    forall k :: 0 <= k < |groups| ==>
      PageStart(r, k) == Some(RowCount(groups[..k])) && PageRecords(r, k) == Some(|groups[k]|)
  }

  /** The binary search ends at the page that holds the record. */
  lemma {:induction false} LocateFinds(r: Reader, groups: seq<seq<Row>>, rec: nat, lo: nat, hi: nat)
    requires Indexed(r, groups) && rec < RowCount(groups) && lo <= GroupOf(groups, rec) <= hi < |groups|
    ensures var k := GroupOf(groups, rec);
            LocateBetween(r, rec, lo, hi) == Some(Place(k, rec - RowCount(groups[..k])))
    decreases hi - lo
  {
    hide PageStart, PageRecords, RowCount, GroupOf;
    var k, mid := GroupOf(groups, rec), (lo + hi) / 2;
    RowCountStep(groups, k);
    RowCountStep(groups, mid);
    if mid < k {
      RowCountMono(groups, mid + 1, k);
      LocateFinds(r, groups, rec, mid + 1, hi);
    } else if k < mid {
      RowCountMono(groups, k + 1, mid);
      LocateFinds(r, groups, rec, lo, mid - 1);
    }
  }

  // ── Finding a column in a page ────────────────────────────────────────────

  /** Measuring the columns before a slot reaches the slot's sector. */
  lemma {:induction false} SkipReaches(r: Reader, body: nat, rows: seq<Row>, fields: nat, fi: nat, slot: nat)
    requires Sectors(rows, r.sigils, fields).Ok? && At(r.data, body, Join(Sectors(rows, r.sigils, fields).value))
    requires fi <= slot < fields
    ensures var sectors := Sectors(rows, r.sigils, fields).value;
            SkipColumns(r, body + |Join(sectors[..fi])|, |rows|, fi, slot) == Ok(body + |Join(sectors[..slot])|)
    decreases slot - fi
  {
    hide Sectors, Join, Column, SectorLen, SigilAt, ColumnOf;
    if fi < slot {
      var sectors := Sectors(rows, r.sigils, fields).value;
      JoinAt(r.data, body, sectors, fi);
      SectorIs(rows, r.sigils, fields, fi);
      SectorLenIs(r.data, body + |Join(sectors[..fi])|, ColumnOf(rows, fi), SigilAt(r.sigils, fi));
      SkipReaches(r, body, rows, fields, fi + 1, slot);
    }
  }

  /** The sector of a page's column is the column the page encodes. */
  lemma {:induction false} PageSector(r: Reader, page: nat, p: nat, index: nat, start: nat, rows: seq<Row>,
      fields: nat, slot: nat)
    requires Page(index, start, fields, r.sigils, rows).Ok? && At(r.data, p, Page(index, start, fields, r.sigils, rows).value)
    requires ReadU(r.data, r.tailStart + page * 28 + 16, 8) == Some(p)
    requires |rows| < U32 && slot < fields < U16
    ensures PaxSector(r, page, slot).Ok? && PaxSector(r, page, slot) == Column(ColumnOf(rows, slot), SigilAt(r.sigils, slot))
  {
    hide PageBytes, Sectors, Join, Column, SectorLen, SigilAt, ColumnOf, ReadLe, ReadU, SkipColumns, At;
    var sectors := Sectors(rows, r.sigils, fields).value;
    PageReads(r.data, p, index, start, |rows|, fields, sectors);
    JoinNothing(sectors);
    SkipReaches(r, p + 24, rows, fields, 0, slot);
    JoinAt(r.data, p + 24, sectors, slot);
    SectorIs(rows, r.sigils, fields, slot);
    SectorLenIs(r.data, p + 24 + |Join(sectors[..slot])|, ColumnOf(rows, slot), SigilAt(r.sigils, slot));
    SliceAt(r.data, p + 24 + |Join(sectors[..slot])|, sectors[slot]);
  }

  lemma {:induction false} JoinNothing(parts: seq<Bytes>)
    ensures Join(parts[..0]) == []
  {
  }

  // ── Main result ───────────────────────────────────────────────────────────

  /** A PAX file that its fields can describe, of at most 2^30 pages so that the search's `i32` sums fit. */
  ghost predicate PaxFits(keys: seq<Bytes>, sigils: Bytes, groups: seq<seq<Row>>, pageSize: nat, hash: Hash)
  {
    && |keys| < U16 && NulFree(keys) && |sigils| == |keys| && 0 !in sigils
    && |groups| <= 0x4000_0000 && RowCount(groups) < U64 && (forall k :: 0 <= k < |groups| ==> |groups[k]| < U32)
    && SealedPax(keys, sigils, groups, pageSize, hash).Ok? && |SealedPax(keys, sigils, groups, pageSize, hash).value| < U64
  }

  lemma {:induction false} PaxHead(keys: seq<Bytes>, sigils: Bytes, groups: seq<seq<Row>>, pageSize: nat, hash: Hash)
    requires PaxFits(keys, sigils, groups, pageSize, hash)
    ensures var data := SealedPax(keys, sigils, groups, pageSize, hash).value;
            && |data| >= 32 && Open(data) == OpenPax(data, PaxFlags(), Embedded(keys, sigils, None))
  {
    hide PreambleBytes, Join, PageEntries, PaxFooter, BasicHeader, ParseBasic, FlagsOf, WireFlags.Value, NulFree, At,
         PagesOf, OpenPax, RowCount;
    var data := SealedPax(keys, sigils, groups, pageSize, hash).value;
    var header, pages := BasicHeader(keys, sigils), PagesOf(groups, |keys|, sigils).value;
    var tailPtr := 32 + |header| + |Join(pages)|;
    PaxParts(header, groups, pages, pageSize, hash);
    PreambleReads(data, VERSION, PaxFlags(), hash(header), tailPtr);
    PaxFooterReads(data, tailPtr + 28 * |groups|, tailPtr, RowCount(groups), |pages|, pageSize);
    assert data[|data| - 4..] == data[tailPtr + 28 * |groups| + 24..tailPtr + 28 * |groups| + 28];
    BasicRoundTrip(data, 32, keys, sigils);
    assert KnownSigils(|keys|, sigils) == sigils;
  }

  /** The reader of a sealed PAX file, which always opens. */
  function PaxReader(keys: seq<Bytes>, sigils: Bytes, groups: seq<seq<Row>>, pageSize: nat, hash: Hash): (r: Reader)
    requires PaxFits(keys, sigils, groups, pageSize, hash)
    ensures Open(SealedPax(keys, sigils, groups, pageSize, hash).value) == Ok(r)
    ensures r.layout == PaxLayout && r.keys == keys && r.sigils == sigils
    ensures r.data == SealedPax(keys, sigils, groups, pageSize, hash).value
  {
    hide Open;
    PaxHead(keys, sigils, groups, pageSize, hash);
    Open(SealedPax(keys, sigils, groups, pageSize, hash).value).value
  }

  lemma {:induction false} PaxOpens(keys: seq<Bytes>, sigils: Bytes, groups: seq<seq<Row>>, pageSize: nat, hash: Hash)
    requires PaxFits(keys, sigils, groups, pageSize, hash)
    ensures var r := PaxReader(keys, sigils, groups, pageSize, hash);
            && r.recordCount == RowCount(groups) && PageCount(r) == |groups|
            && r.tailStart == 32 + |BasicHeader(keys, sigils)| + |Join(PagesOf(groups, |keys|, sigils).value)|
  {
    hide Open, PreambleBytes, Join, PageEntries, PaxFooter, BasicHeader, NulFree, At, PagesOf, RowCount, ReadLe;
    var data := SealedPax(keys, sigils, groups, pageSize, hash).value;
    var header, pages := BasicHeader(keys, sigils), PagesOf(groups, |keys|, sigils).value;
    var tailPtr := 32 + |header| + |Join(pages)|;
    PaxHead(keys, sigils, groups, pageSize, hash);
    PaxParts(header, groups, pages, pageSize, hash);
    PaxFooterReads(data, tailPtr + 28 * |groups|, tailPtr, RowCount(groups), |pages|, pageSize);
    assert |data| - 28 == tailPtr + 28 * |groups|;
  }

  lemma {:induction false} PageIs(groups: seq<seq<Row>>, fields: nat, sigils: Bytes, k: nat)
    requires PagesOf(groups, fields, sigils).Ok? && k < |groups|
    ensures Page(k, RowCount(groups[..k]), fields, sigils, groups[k]) == Ok(PagesOf(groups, fields, sigils).value[k])
    ensures PagesOf(groups[..k], fields, sigils) == Ok(PagesOf(groups, fields, sigils).value[..k])
    decreases |groups|
  {
    hide Page, RowCount;
    var last := |groups| - 1;
    var front := PagesOf(groups[..last], fields, sigils).value;
    if k < last {
      PageIs(groups[..last], fields, sigils, k);
      assert groups[..last][..k] == groups[..k];
      assert PagesOf(groups, fields, sigils).value[..k] == front[..k];
    } else {
      assert PagesOf(groups, fields, sigils).value[..k] == front;
    }
  }

  /** Each entry of the tail index describes its page, and leads to it. */
  lemma {:induction false} PageFound(keys: seq<Bytes>, sigils: Bytes, groups: seq<seq<Row>>, pageSize: nat,
      hash: Hash, k: nat)
    requires PaxFits(keys, sigils, groups, pageSize, hash) && k < |groups|
    ensures var r := PaxReader(keys, sigils, groups, pageSize, hash);
            var page := Page(k, RowCount(groups[..k]), |keys|, sigils, groups[k]);
            && PageStart(r, k) == Some(RowCount(groups[..k])) && PageRecords(r, k) == Some(|groups[k]|)
            && page.Ok? && exists p: nat :: At(r.data, p, page.value) && ReadU(r.data, r.tailStart + k * 28 + 16, 8) == Some(p)
  {
    hide Open, PreambleBytes, Join, PageEntries, PageEntry, PaxFooter, BasicHeader, NulFree, At, PagesOf, RowCount,
         ReadU, Page, PaxReader;
    var r := PaxReader(keys, sigils, groups, pageSize, hash);
    var header, pages := BasicHeader(keys, sigils), PagesOf(groups, |keys|, sigils).value;
    var base := 32 + |header|;
    PaxOpens(keys, sigils, groups, pageSize, hash);
    PaxParts(header, groups, pages, pageSize, hash);
    PageEntryAt(r.data, r.tailStart, groups, pages, base, k);
    JoinAt(r.data, base, pages, k);
    RowCountMono(groups, k, k);
    PageEntryReads(r.data, r.tailStart + 28 * k, k, RowCount(groups[..k]), |groups[k]|, base + |Join(pages[..k])|, |pages[k]|);
    PageIs(groups, |keys|, sigils, k);
    assert r.tailStart + 28 * k + 16 == r.tailStart + k * 28 + 16;
    assert At(r.data, base + |Join(pages[..k])|, pages[k]);
  }

  // ── Reading any indexed pages ─────────────────────────────────────────────

  /** The tail entry of page `k` leads to the bytes of group `k`. */
  ghost predicate PageAt(r: Reader, groups: seq<seq<Row>>, k: nat)
    requires k < |groups|
  {
    var page := Page(k, RowCount(groups[..k]), |r.keys|, r.sigils, groups[k]);
    page.Ok? && exists p: nat :: At(r.data, p, page.value) && ReadU(r.data, r.tailStart + k * 28 + 16, 8) == Some(p)
  }

  /** A PAX reader whose tail index leads to one page for each group of rows. */
  ghost predicate Holds(r: Reader, groups: seq<seq<Row>>)
  {
    && r.layout == PaxLayout && |r.sigils| == |r.keys| < U16 && r.recordCount == RowCount(groups)
    && PageCount(r) == |groups| <= 0x4000_0000 && Indexed(r, groups)
    && forall k :: 0 <= k < |groups| ==> |groups[k]| < U32 && PageAt(r, groups, k)
  }

  lemma {:induction false} PaxReaderHolds(keys: seq<Bytes>, sigils: Bytes, groups: seq<seq<Row>>, pageSize: nat,
      hash: Hash)
    requires PaxFits(keys, sigils, groups, pageSize, hash)
    ensures Holds(PaxReader(keys, sigils, groups, pageSize, hash), groups)
  {
    hide PaxReader, PageStart, PageRecords, RowCount, PageCount, SealedPax, NulFree, Page, At, ReadU, Open, Indexed,
         PageAt;
    var r := PaxReader(keys, sigils, groups, pageSize, hash);
    PaxOpens(keys, sigils, groups, pageSize, hash);
    PagesFound(keys, sigils, groups, pageSize, hash, r);
  }

  lemma {:induction false} PagesFound(keys: seq<Bytes>, sigils: Bytes, groups: seq<seq<Row>>, pageSize: nat,
      hash: Hash, r: Reader)
    requires PaxFits(keys, sigils, groups, pageSize, hash) && r == PaxReader(keys, sigils, groups, pageSize, hash)
    ensures Indexed(r, groups) && forall k :: 0 <= k < |groups| ==> PageAt(r, groups, k)
  {
    hide PaxReader, PageStart, PageRecords, RowCount, SealedPax, Page, At, ReadU, Open, PaxFits;
    forall k | 0 <= k < |groups|
      ensures PageStart(r, k) == Some(RowCount(groups[..k])) && PageRecords(r, k) == Some(|groups[k]|) && PageAt(r, groups, k)
    {
      PageFound(keys, sigils, groups, pageSize, hash, k);
    }
  }

  lemma {:induction false} LastPageIs(r: Reader, n: nat)
    requires 0 < n <= 0x4000_0000 && PageCount(r) == n
    ensures LastPage(r) == n - 1
  {
    hide PageCount;
    Pow256Values();
  }

  /** Where pages hold groups of rows, every getter finds its record's cell. */
  lemma {:induction false} PagesRead(r: Reader, groups: seq<seq<Row>>, rec: nat, slot: nat)
    requires Holds(r, groups) && rec < RowCount(groups) && slot < |r.keys|
    ensures var rows := Flatten(groups);
            && GetRaw(r, rec, slot) == TableRaw(rows, r.sigils[slot], rec, slot)
            && GetBool(r, rec, slot) == TableBool(rows, r.sigils[slot], rec, slot)
            && GetText(r, rec, slot) == TableText(rows, r.sigils[slot], rec, slot)
  {
    hide PageStart, PageRecords, RowCount, GroupOf, LocateBetween, LastPage, PageCount, GetRaw, GetBool, GetText,
         Flatten, Page, At, ReadU, PaxSector, CellAt, Column;
    var k := GroupOf(groups, rec);
    LastPageIs(r, |groups|);
    LocateFinds(r, groups, rec, 0, |groups| - 1);
    assert PageAt(r, groups, k);
    var page := Page(k, RowCount(groups[..k]), |r.keys|, r.sigils, groups[k]);
    var p: nat :| At(r.data, p, page.value) && ReadU(r.data, r.tailStart + k * 28 + 16, 8) == Some(p);
    PageSector(r, k, p, k, RowCount(groups[..k]), groups[k], |r.keys|, slot);
    FlattenAt(groups, rec);
    SpotReads(r, rec, slot, Flatten(groups), rec, ColumnOf(groups[k], slot));
  }

  /** Every getter of a PAX reader returns what the table holds, for any grouping of the rows into pages. */
  lemma {:induction false} PaxRoundTrip(keys: seq<Bytes>, sigils: Bytes, groups: seq<seq<Row>>, pageSize: nat,
      hash: Hash, rec: nat, slot: nat)
    requires PaxFits(keys, sigils, groups, pageSize, hash) && rec < RowCount(groups) && slot < |keys|
    ensures var r, rows := PaxReader(keys, sigils, groups, pageSize, hash), Flatten(groups);
            && r.recordCount == |rows|
            && GetRaw(r, rec, slot) == TableRaw(rows, sigils[slot], rec, slot)
            && GetBool(r, rec, slot) == TableBool(rows, sigils[slot], rec, slot)
            && GetText(r, rec, slot) == TableText(rows, sigils[slot], rec, slot)
  {
    hide PaxReader, RowCount, GetRaw, GetBool, GetText, Flatten, SealedPax, NulFree, Indexed, PageAt, PageCount,
         TableRaw, TableBool, TableText, Open;
    PaxReaderHolds(keys, sigils, groups, pageSize, hash);
    PagesRead(PaxReader(keys, sigils, groups, pageSize, hash), groups, rec, slot);
  }
}
