/**
 The columnar and PAX writers. A table is a list of rows; a columnar file holds each of its columns once,
 and a PAX file holds the columns of one group of rows after another.
 */
module TableLayout {
  import opened Bytes
  import opened CompactSchema
  import opened SchemaHeader
  import opened Preamble
  import opened Columns
  import opened TailIndex

  const MAGIC_PAGE: nat := 0x4E58_5350

  type Row = seq<Cell>

  function CellAt(row: Row, fi: nat): Cell
  {
    if fi < |row| then row[fi] else Absent
  }

  function ColumnOf(rows: seq<Row>, fi: nat): (col: seq<Cell>)
    ensures |col| == |rows| && forall i :: 0 <= i < |rows| ==> col[i] == CellAt(rows[i], fi)
  {
    seq(|rows|, i requires 0 <= i < |rows| => CellAt(rows[i], fi))
  }

  /** `Cell::sigil` */
  function SigilOf(c: Cell): Byte
  {
    match c
    case I64(_) => SIGIL_INT
    case F64(_) => SIGIL_FLOAT
    case Bool(_) => SIGIL_BOOL
    case Time(_) => SIGIL_TIME
    case Str(_) => SIGIL_STR
    case Binary(_) => SIGIL_BINARY
    case Null => SIGIL_NULL
    case Absent => 0
  }

  /** The sigil of the first cell present in a column. */
  function SigilForKey(rows: seq<Row>, fi: nat): (s: Byte)
    ensures s != 0 && s != SIGIL_KEYWORD
  {
    if |rows| == 0 then SIGIL_INT
    else if !CellAt(rows[0], fi).Absent? then SigilOf(CellAt(rows[0], fi))
    else SigilForKey(rows[1..], fi)
  }

  /** `sigils_for_keys` */
  function SigilsForKeys(n: nat, rows: seq<Row>): (s: Bytes)
    ensures |s| == n && forall fi :: 0 <= fi < n ==> s[fi] == SigilForKey(rows, fi)
  {
    seq(n, fi requires 0 <= fi => SigilForKey(rows, fi))
  }

  function SigilAt(sigils: Bytes, fi: nat): Byte
  {
    if fi < |sigils| then sigils[fi] else SIGIL_INT
  }

  // ── The columns of a group of rows ────────────────────────────────────────

  /** The encoded columns of the first `n` fields, or the first failure. */
  function Sectors(rows: seq<Row>, sigils: Bytes, n: nat): (r: Result<seq<Bytes>>)
    ensures r.Ok? ==> |r.value| == n
  {
    if n == 0 then Ok([])
    else
      var front :- Sectors(rows, sigils, n - 1);
      var sector :- Column(ColumnOf(rows, n - 1), SigilAt(sigils, n - 1));
      Ok(front + [sector])
  }

  lemma {:induction false} SectorIs(rows: seq<Row>, sigils: Bytes, n: nat, k: nat)
    requires Sectors(rows, sigils, n).Ok? && k < n
    ensures Column(ColumnOf(rows, k), SigilAt(sigils, k)) == Ok(Sectors(rows, sigils, n).value[k])
    ensures Sectors(rows, sigils, k) == Ok(Sectors(rows, sigils, n).value[..k])
  {
    hide Column, ColumnOf, SigilAt;
    var front := Sectors(rows, sigils, n - 1).value;
    if k < n - 1 {
      SectorIs(rows, sigils, n - 1, k);
      assert Sectors(rows, sigils, n).value[..k] == front[..k];
    } else {
      assert Sectors(rows, sigils, n).value[..k] == front;
    }
  }

  /** A failed column stays a failure, whatever columns follow. */
  lemma {:induction false} SectorsFail(rows: seq<Row>, sigils: Bytes, k: nat, n: nat)
    requires k <= n && Sectors(rows, sigils, k).Err?
    ensures Sectors(rows, sigils, n) == Sectors(rows, sigils, k)
    decreases n
  {
    hide Column, ColumnOf, SigilAt;
    if k < n { SectorsFail(rows, sigils, k, n - 1); }
  }

  // ── Columnar files ────────────────────────────────────────────────────────

  function ColumnarFlags(): WireFlags { WireFlags(true, true, false, false, false, false, false, false) }

  /** One 20-byte entry a column: its field, its offset and its length. */
  function ColumnEntries(sectors: seq<Bytes>, base: nat): (b: Bytes)
    ensures |b| == 20 * |sectors|
  {
    if |sectors| == 0 then []
    else
      var k := |sectors| - 1;
      ColumnEntries(sectors[..k], base) + ColumnEntry(k, base + |Join(sectors[..k])|, |sectors[k]|)
  }

  function ColumnEntry(field: nat, off: nat, len: nat): (b: Bytes)
    ensures |b| == 20
  {
    Le(field, 2) + Le(0, 2) + Le(off, 8) + Le(len, 8)
  }

  function ColumnarFooter(tailPtr: nat, n: nat): (b: Bytes)
    ensures |b| == 20
  {
    Le(tailPtr, 8) + Le(n, 8) + Le(MAGIC_FOOTER, 4)
  }

  function ColumnarFile(header: Bytes, sectors: seq<Bytes>, n: nat, hash: Hash): Bytes
  {
    var base := 32 + |header|;
    var tailPtr := base + |Join(sectors)|;
    PreambleBytes(VERSION, ColumnarFlags(), hash(header), tailPtr) + header + Join(sectors)
    + ColumnEntries(sectors, base) + ColumnarFooter(tailPtr, n)
  }

  /** `finish_columnar` */
  function Columnar(keys: seq<Bytes>, rows: seq<Row>, hash: Hash): Result<Bytes>
  {
    var sigils := SigilsForKeys(|keys|, rows);
    var sectors :- Sectors(rows, sigils, |keys|);
    Ok(ColumnarFile(BasicHeader(keys, sigils), sectors, |rows|, hash))
  }

  method FinishColumnar(keys: seq<Bytes>, rows: seq<Row>, hash: Hash) returns (r: Result<Bytes>)
    ensures r == Columnar(keys, rows, hash)
  {
    hide ColumnarFooter, PreambleBytes, ColumnEntry, Join, ColumnOf, SigilForKey, Sectors, ColumnEntries, BasicHeader,
         Column;
    var sigils := SigilsForKeys(|keys|, rows);
    var header := BuildSchema(keys, sigils);
    var data: Bytes := [];
    var entries: Bytes := [];
    ghost var sectors: seq<Bytes> := [];
    NoSectors(rows, sigils, 32 + |header|);
    for fi := 0 to |keys|
      invariant Sectors(rows, sigils, fi) == Ok(sectors) && |sectors| == fi
      invariant data == Join(sectors) && entries == ColumnEntries(sectors, 32 + |header|)
    {
      var sector := EncodeFieldColumn(ColumnOf(rows, fi), sigils[fi]);
      SectorsStep(rows, sigils, fi);
      if sector.Err? {
        SectorsFail(rows, sigils, fi + 1, |keys|);
        return Err(sector.error);
      }
      JoinSnoc(sectors, sector.value);
      EntriesSnoc(sectors, sector.value, 32 + |header|);
      entries := entries + ColumnEntry(fi, 32 + |header| + |data|, |sector.value|);
      data := data + sector.value;
      sectors := sectors + [sector.value];
    }
    var tailPtr := 32 + |header| + |data|;
    r := Ok(PreambleBytes(VERSION, ColumnarFlags(), hash(header), tailPtr) + header + data + entries + ColumnarFooter(tailPtr, |rows|));
  }

  lemma {:induction false} NoSectors(rows: seq<Row>, sigils: Bytes, base: nat)
    ensures Sectors(rows, sigils, 0) == Ok([]) && Join([]) == [] && ColumnEntries([], base) == []
  {
  }

  lemma {:induction false} SectorsStep(rows: seq<Row>, sigils: Bytes, fi: nat)
    requires Sectors(rows, sigils, fi).Ok?
    ensures Sectors(rows, sigils, fi + 1) ==
            match Column(ColumnOf(rows, fi), SigilAt(sigils, fi))
            case Err(e) => Err(e)
            case Ok(sector) => Ok(Sectors(rows, sigils, fi).value + [sector])
  {
    hide Column, ColumnOf;
  }

  lemma {:induction false} EntriesSnoc(sectors: seq<Bytes>, sector: Bytes, base: nat)
    ensures ColumnEntries(sectors + [sector], base) ==
            ColumnEntries(sectors, base) + ColumnEntry(|sectors|, base + |Join(sectors)|, |sector|)
  {
    hide Join, ColumnEntry;
    assert (sectors + [sector])[..|sectors|] == sectors;
  }

  // ── PAX pages ─────────────────────────────────────────────────────────────

  function PaxFlags(): WireFlags { WireFlags(false, true, true, false, false, false, false, false) }

  function PageHeader(index: nat, start: nat, count: nat, fields: nat): (b: Bytes)
    ensures |b| == 24
  {
    Le(MAGIC_PAGE, 4) + Le(index, 4) + Le(start, 8) + Le(count, 4) + Le(fields, 2) + Le(0, 2)
  }

  function PageBytes(index: nat, start: nat, count: nat, fields: nat, sectors: seq<Bytes>): (b: Bytes)
    ensures |b| == RoundUp(28 + |Join(sectors)|, 8)
  {
    PadTo(PageHeader(index, start, count, fields) + Join(sectors) + Le(28 + |Join(sectors)|, 4), 8)
  }

  /** `encode_page` */
  function Page(index: nat, start: nat, fields: nat, sigils: Bytes, rows: seq<Row>): Result<Bytes>
  {
    var sectors :- Sectors(rows, sigils, fields);
    Ok(PageBytes(index, start, |rows|, fields, sectors))
  }

  method EncodePage(index: nat, start: nat, fields: nat, sigils: Bytes, rows: seq<Row>) returns (r: Result<Bytes>)
    ensures r == Page(index, start, fields, sigils, rows)
  {
    hide Le, ColumnOf, Column, Join;
    var body: Bytes := [];
    ghost var sectors: seq<Bytes> := [];
    NoSectors(rows, sigils, 0);
    for fi := 0 to fields
      invariant Sectors(rows, sigils, fi) == Ok(sectors) && body == Join(sectors)
    {
      var sector := EncodeFieldColumn(ColumnOf(rows, fi), SigilAt(sigils, fi));
      if sector.Err? {
        SectorsFail(rows, sigils, fi + 1, fields);
        return Err(sector.error);
      }
      JoinSnoc(sectors, sector.value);
      body := body + sector.value;
      sectors := sectors + [sector.value];
    }
    var pageLen := 24 + |body| + 4;
    var page := PageHeader(index, start, |rows|, fields) + body + Le(pageLen, 4);
    page := PadLoop(page, 8);
    r := Ok(page);
  }

  function RowCount(groups: seq<seq<Row>>): nat
  {
    if |groups| == 0 then 0 else RowCount(groups[..|groups| - 1]) + |groups[|groups| - 1]|
  }

  function Flatten(groups: seq<seq<Row>>): (rows: seq<Row>)
    ensures |rows| == RowCount(groups)
  {
    if |groups| == 0 then [] else Flatten(groups[..|groups| - 1]) + groups[|groups| - 1]
  }

  /** One page for each group of rows, numbered and starting where the groups before it end. */
  function PagesOf(groups: seq<seq<Row>>, fields: nat, sigils: Bytes): (r: Result<seq<Bytes>>)
    ensures r.Ok? ==> |r.value| == |groups|
  {
    if |groups| == 0 then Ok([])
    else
      var k := |groups| - 1;
      var front :- PagesOf(groups[..k], fields, sigils);
      var page :- Page(k, RowCount(groups[..k]), fields, sigils, groups[k]);
      Ok(front + [page])
  }

  /** One 28-byte entry a page: its index, first record, records, offset and length. */
  function PageEntries(groups: seq<seq<Row>>, pages: seq<Bytes>, base: nat): (b: Bytes)
    requires |pages| == |groups|
    ensures |b| == 28 * |groups|
  {
    if |groups| == 0 then []
    else
      var k := |groups| - 1;
      PageEntries(groups[..k], pages[..k], base)
      + PageEntry(k, RowCount(groups[..k]), |groups[k]|, base + |Join(pages[..k])|, |pages[k]|)
  }

  function PageEntry(index: nat, start: nat, count: nat, off: nat, len: nat): (b: Bytes)
    ensures |b| == 28
  {
    Le(index, 4) + Le(start, 8) + Le(count, 4) + Le(off, 8) + Le(len, 4)
  }

  function PaxFooter(tailPtr: nat, n: nat, pages: nat, pageSize: nat): (b: Bytes)
    ensures |b| == 28
  {
    Le(tailPtr, 8) + Le(n, 8) + Le(pages, 4) + Le(pageSize, 4) + Le(MAGIC_FOOTER, 4)
  }

  /** A sealed PAX file of any groups of rows. */
  function PaxFile(header: Bytes, groups: seq<seq<Row>>, pages: seq<Bytes>, pageSize: nat, hash: Hash): Bytes
    requires |pages| == |groups|
  {
    var base := 32 + |header|;
    var tailPtr := base + |Join(pages)|;
    PreambleBytes(VERSION, PaxFlags(), hash(header), tailPtr) + header + Join(pages)
    + PageEntries(groups, pages, base) + PaxFooter(tailPtr, RowCount(groups), |pages|, pageSize)
  }

  function SealedPax(keys: seq<Bytes>, sigils: Bytes, groups: seq<seq<Row>>, pageSize: nat, hash: Hash): Result<Bytes>
  {
    var pages :- PagesOf(groups, |keys|, sigils);
    Ok(PaxFile(BasicHeader(keys, sigils), groups, pages, pageSize, hash))
  }

  /** The rows in groups of `pageSize`, the last of which may be shorter. */
  function Groups(rows: seq<Row>, pageSize: nat): (g: seq<seq<Row>>)
    requires pageSize > 0
  {
    if |rows| == 0 then []
    else if |rows| <= pageSize then [rows]
    else [rows[..pageSize]] + Groups(rows[pageSize..], pageSize)
  }

  /** `finish_pax`, of fewer than 2^32 rows. */
  function Pax(keys: seq<Bytes>, rows: seq<Row>, pageSize: nat, hash: Hash): Result<Bytes>
  {
    if pageSize == 0 then Err(ParseError)
    else SealedPax(keys, SigilsForKeys(|keys|, rows), Groups(rows, pageSize), pageSize, hash)
  }

  lemma {:induction false} PagesFail(groups: seq<seq<Row>>, more: seq<seq<Row>>, fields: nat, sigils: Bytes)
    requires PagesOf(groups, fields, sigils).Err?
    ensures PagesOf(groups + more, fields, sigils) == PagesOf(groups, fields, sigils)
    decreases |more|
  {
    if |more| == 0 {
      assert groups + more == groups;
    } else {
      PagesFail(groups, more[..|more| - 1], fields, sigils);
      assert (groups + more)[..|groups + more| - 1] == groups + more[..|more| - 1];
    }
  }

  lemma {:induction false} GroupsSnoc(groups: seq<seq<Row>>, group: seq<Row>)
    ensures RowCount(groups + [group]) == RowCount(groups) + |group|
    ensures Flatten(groups + [group]) == Flatten(groups) + group
  {
    assert (groups + [group])[..|groups|] == groups;
  }

  lemma {:induction false} PagesSnoc(groups: seq<seq<Row>>, group: seq<Row>, fields: nat, sigils: Bytes)
    requires PagesOf(groups, fields, sigils).Ok?
    ensures PagesOf(groups + [group], fields, sigils) ==
            match Page(|groups|, RowCount(groups), fields, sigils, group)
            case Err(e) => Err(e)
            case Ok(page) => Ok(PagesOf(groups, fields, sigils).value + [page])
  {
    hide Page, RowCount;
    assert (groups + [group])[..|groups|] == groups;
  }

  lemma {:induction false} PageEntriesSnoc(groups: seq<seq<Row>>, group: seq<Row>, pages: seq<Bytes>, page: Bytes,
      base: nat)
    requires |pages| == |groups|
    ensures PageEntries(groups + [group], pages + [page], base) ==
            PageEntries(groups, pages, base)
            + PageEntry(|groups|, RowCount(groups), |group|, base + |Join(pages)|, |page|)
  {
    hide Join, PageEntry, RowCount;
    assert (groups + [group])[..|groups|] == groups && (pages + [page])[..|pages|] == pages;
  }

  /** The rows of the next page: those left, cut to 32 bits, or as many as a page holds. */
  function NextCount(n: nat, i: nat, pageSize: nat): (count: nat)
    requires i <= n
    ensures count <= n - i
  {
    var rest := (n - i) % U32;
    if rest < pageSize then rest else pageSize
  }

  /** The rows that the loop of `finish_pax` has put on its first `m` pages. */
  function PagedUpTo(n: nat, pageSize: nat, m: nat): (i: nat)
    ensures i <= n
  {
    if m == 0 then 0
    else
      var i := PagedUpTo(n, pageSize, m - 1);
      i + NextCount(n, i, pageSize)
  }

  lemma {:induction false} PagesAdvance(n: nat, pageSize: nat, m: nat)
    requires pageSize > 0 && n < U32
    ensures PagedUpTo(n, pageSize, m) >= if m < n then m else n
  {
    if m > 0 { PagesAdvance(n, pageSize, m - 1); }
  }

  lemma {:induction false} PagesStay(n: nat, pageSize: nat, m: nat)
    requires n >= U32
    ensures n - PagedUpTo(n, pageSize, m) >= U32
  {
    if m > 0 {
      PagesStay(n, pageSize, m - 1);
      var left := n - PagedUpTo(n, pageSize, m - 1);
      assert left == U32 * (left / U32) + left % U32 && left / U32 >= 1;
    }
  }

  /** The loop comes to an end exactly for fewer than 2^32 rows: with more it stops short and then only adds empty pages. */
  lemma {:induction false} PagingEndsIff(n: nat, pageSize: nat)
    requires pageSize > 0
    ensures (exists m: nat :: PagedUpTo(n, pageSize, m) == n) <==> n < U32
  {
    if n < U32 {
      PagesAdvance(n, pageSize, n);
    } else {
      forall m: nat
        ensures PagedUpTo(n, pageSize, m) != n
      {
        PagesStay(n, pageSize, m);
      }
    }
  }

  method FinishPax(keys: seq<Bytes>, rows: seq<Row>, pageSize: nat, hash: Hash) returns (r: Result<Bytes>)
    requires |rows| < U32
    ensures r == Pax(keys, rows, pageSize, hash)
  {
    hide Page, PageEntry, Join, PaxFooter, PreambleBytes, SigilForKey, PagesOf, PageEntries, RowCount, Groups,
         BasicHeader;
    if pageSize == 0 { return Err(ParseError); }
    var n := |rows|;
    var sigils := SigilsForKeys(|keys|, rows);
    var header := BuildSchema(keys, sigils);
    var base := 32 + |header|;
    var data: Bytes := [];
    var entries: Bytes := [];
    var pageIdx, recStart, i := 0, 0, 0;
    ghost var groups: seq<seq<Row>> := [];
    ghost var pages: seq<Bytes> := [];
    NoPages(|keys|, sigils, base, pageSize);
    assert rows[0..] == rows && [] + Groups(rows, pageSize) == Groups(rows, pageSize);
    while i < n
      invariant 0 <= i <= n && |groups| == pageIdx && RowCount(groups) == recStart == i
      invariant groups + Groups(rows[i..], pageSize) == Groups(rows, pageSize)
      invariant PagesOf(groups, |keys|, sigils) == Ok(pages)
      invariant data == Join(pages) && |pages| == |groups| && entries == PageEntries(groups, pages, base)
    {
      var count := NextCount(n, i, pageSize);
      var group := rows[i..i + count];
      GroupsStep(rows, i, pageSize);
      assert groups + ([group] + Groups(rows[i + count..], pageSize)) == groups + [group] + Groups(rows[i + count..], pageSize);
      var page := EncodePage(pageIdx, recStart, |keys|, sigils, group);
      GroupsSnoc(groups, group);
      PagesSnoc(groups, group, |keys|, sigils);
      if page.Err? {
        PagesFail(groups + [group], Groups(rows[i + count..], pageSize), |keys|, sigils);
        return Err(page.error);
      }
      JoinSnoc(pages, page.value);
      PageEntriesSnoc(groups, group, pages, page.value, base);
      entries := entries + PageEntry(pageIdx, recStart, count, base + |data|, |page.value|);
      data := data + page.value;
      groups := groups + [group];
      pages := pages + [page.value];
      pageIdx := pageIdx + 1;
      recStart := recStart + count;
      i := i + count;
    }
    assert rows[i..] == [] && groups + [] == groups;
    var tailPtr := base + |data|;
    r := Ok(PreambleBytes(VERSION, PaxFlags(), hash(header), tailPtr) + header + data + entries
            + PaxFooter(tailPtr, n, pageIdx, pageSize));
  }

  lemma {:induction false} NoPages(fields: nat, sigils: Bytes, base: nat, pageSize: nat)
    requires pageSize > 0
    ensures Groups([], pageSize) == [] && PagesOf([], fields, sigils) == Ok([]) && PageEntries([], [], base) == [] && Join([]) == [] && RowCount([]) == 0
  {
  }

  lemma {:induction false} GroupsStep(rows: seq<Row>, i: nat, pageSize: nat)
    requires i < |rows| && pageSize > 0
    ensures var count := if |rows| - i < pageSize then |rows| - i else pageSize;
            Groups(rows[i..], pageSize) == [rows[i..i + count]] + Groups(rows[i + count..], pageSize)
  {
    var count := if |rows| - i < pageSize then |rows| - i else pageSize;
    assert rows[i..][..count] == rows[i..i + count];
    if |rows| - i <= pageSize {
      assert rows[i..i + count] == rows[i..];
    } else {
      assert rows[i..][pageSize..] == rows[i + pageSize..];
    }
  }
}
