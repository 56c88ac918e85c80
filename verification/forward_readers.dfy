/**
 Readers of a growing file. They look only forward, for PAX pages or row objects that are complete; a page
 or object once found is not changed by what is appended, and polling a truncated stream yields exactly the
 complete pages or objects in it.
 */
module ForwardReaders {
  import opened Bytes
  import opened CompactSchema
  import opened SchemaHeader
  import opened Columns
  import opened TableLayout
  import opened ColumnarReads
  import opened PaxReads
  import opened CompactRecord

  // ── Complete pages ────────────────────────────────────────────────────────

  /** Where the columns from `fi` on end, measured one by one. */
  function MeasureColumns(data: Bytes, body: nat, n: nat, sigils: Bytes, fi: nat, fields: nat): (end: Option<nat>)
    requires fi <= fields
    ensures end.Some? ==> body <= end.value
    decreases fields - fi
  {
    if fi == fields then Some(body)
    else if body > |data| then None
    else
      var len :- SectorLen(data[body..], n, SigilAt(sigils, fi)).ToOption();
      MeasureColumns(data, body + len, n, sigils, fi + 1, fields)
  }

  /** `complete_page_end` */
  function PageEnd(data: Bytes, off: nat, sigils: Bytes): (end: Option<nat>)
    ensures end.Some? ==> off + 24 < end.value <= |data|
  {
    if off + 24 > |data| || ReadLe(data[off..off + 4]) != MAGIC_PAGE then None
    else
      var n := ReadLe(data[off + 16..off + 20]);
      var fields := ReadLe(data[off + 20..off + 22]);
      var body :- MeasureColumns(data, off + 24, n, sigils, 0, fields);
      if body + 4 > |data| then None
      else if off + ReadLe(data[body..body + 4]) != body + 4 then None
      else if RoundUp(body + 4, 8) <= |data| then Some(RoundUp(body + 4, 8)) else None
  }

  method CompletePageEnd(data: Bytes, off: nat, sigils: Bytes) returns (end: Option<nat>)
    ensures end == PageEnd(data, off, sigils)
  {
    hide MeasureColumns, SectorLen, ReadLe, SigilAt;
    if off + 24 > |data| { return None; }
    if ReadLe(data[off..off + 4]) != MAGIC_PAGE { return None; }
    var n := ReadLe(data[off + 16..off + 20]);
    var body := MeasureLoop(data, off + 24, n, sigils, ReadLe(data[off + 20..off + 22]));
    if body.None? || body.value + 4 > |data| { return None; }
    var logicalEnd := off + ReadLe(data[body.value..body.value + 4]);
    if logicalEnd != body.value + 4 { return None; }
    var alignedEnd := RoundUp(logicalEnd, 8);
    end := if alignedEnd <= |data| then Some(alignedEnd) else None;
  }

  method MeasureLoop(data: Bytes, start: nat, n: nat, sigils: Bytes, fields: nat) returns (end: Option<nat>)
    ensures end == MeasureColumns(data, start, n, sigils, 0, fields)
  {
    hide SectorLen, SigilAt;
    var body: nat := start;
    for fi := 0 to fields
      invariant 0 <= body
      invariant MeasureColumns(data, start, n, sigils, 0, fields) == MeasureColumns(data, body, n, sigils, fi, fields)
    {
      if body > |data| { return None; }
      var len := SectorLen(data[body..], n, SigilAt(sigils, fi));
      if len.Err? { return None; }
      body := body + len.value;
    }
    end := Some(body);
  }

  lemma {:induction false} SectorLenGrows(sector: Bytes, more: Bytes, n: nat, sigil: Byte)
    requires SectorLen(sector, n, sigil).Ok?
    ensures SectorLen(sector + more, n, sigil) == SectorLen(sector, n, sigil)
  {
    hide BitmapLen;
    var bm := BitmapLen(n);
    if IsVar(sigil) {
      assert (sector + more)[bm + n * 4..bm + n * 4 + 4] == sector[bm + n * 4..bm + n * 4 + 4];
    }
  }

  lemma {:induction false} MeasureGrows(data: Bytes, more: Bytes, body: nat, n: nat, sigils: Bytes, fi: nat,
      fields: nat)
    requires fi <= fields && MeasureColumns(data, body, n, sigils, fi, fields).Some?
    ensures MeasureColumns(data + more, body, n, sigils, fi, fields) == MeasureColumns(data, body, n, sigils, fi, fields)
    decreases fields - fi
  {
    hide SectorLen, SigilAt;
    if fi < fields {
      var len := SectorLen(data[body..], n, SigilAt(sigils, fi));
      SectorLenGrows(data[body..], more, n, SigilAt(sigils, fi));
      assert (data + more)[body..] == data[body..] + more;
      MeasureGrows(data, more, body + len.value, n, sigils, fi + 1, fields);
    }
  }

  /** A page found in a prefix is found, with the same end, however the file grows. */
  lemma {:induction false} PageEndGrows(data: Bytes, more: Bytes, off: nat, sigils: Bytes)
    requires PageEnd(data, off, sigils).Some?
    ensures PageEnd(data + more, off, sigils) == PageEnd(data, off, sigils)
  {
    hide MeasureColumns, ReadLe, RoundUp;
    var all := data + more;
    assert all[off..off + 4] == data[off..off + 4];
    assert all[off + 16..off + 20] == data[off + 16..off + 20];
    assert all[off + 20..off + 22] == data[off + 20..off + 22];
    var n, fields := ReadLe(data[off + 16..off + 20]), ReadLe(data[off + 20..off + 22]);
    MeasureGrows(data, more, off + 24, n, sigils, 0, fields);
    var body := MeasureColumns(data, off + 24, n, sigils, 0, fields).value;
    assert all[body..body + 4] == data[body..body + 4];
  }

  /** Measuring the columns of a written page reaches the end of its body. */
  lemma {:induction false} MeasureReaches(data: Bytes, body: nat, rows: seq<Row>, sigils: Bytes, fields: nat, fi: nat)
    requires Sectors(rows, sigils, fields).Ok? && At(data, body, Join(Sectors(rows, sigils, fields).value)) && fi <= fields
    ensures var sectors := Sectors(rows, sigils, fields).value;
            MeasureColumns(data, body + |Join(sectors[..fi])|, |rows|, sigils, fi, fields) == Some(body + |Join(sectors)|)
    decreases fields - fi
  {
    hide Sectors, Join, Column, SectorLen, SigilAt, ColumnOf;
    var sectors := Sectors(rows, sigils, fields).value;
    if fi < fields {
      JoinAt(data, body, sectors, fi);
      SectorIs(rows, sigils, fields, fi);
      SectorLenIs(data, body + |Join(sectors[..fi])|, ColumnOf(rows, fi), SigilAt(sigils, fi));
      MeasureReaches(data, body, rows, sigils, fields, fi + 1);
    } else {
      assert sectors[..fi] == sectors;
    }
  }

  /** A written page at an 8-aligned position ends where its bytes end. */
  lemma {:induction false} WrittenPageEnds(data: Bytes, off: nat, index: nat, start: nat, fields: nat,
      sigils: Bytes, rows: seq<Row>)
    requires Page(index, start, fields, sigils, rows).Ok? && At(data, off, Page(index, start, fields, sigils, rows).value)
    requires off % 8 == 0 && |rows| < U32 && fields < U16 && |Page(index, start, fields, sigils, rows).value| < U32
    ensures PageEnd(data, off, sigils) == Some(off + |Page(index, start, fields, sigils, rows).value|)
  {
    hide Sectors, Join, MeasureColumns, PageBytes, PageEnd;
    var sectors := Sectors(rows, sigils, fields).value;
    assert off + |PageBytes(index, start, |rows|, fields, sectors)| <= |data|;
    PageReads(data, off, index, start, |rows|, fields, sectors);
    JoinNothing(sectors);
    MeasureReaches(data, off + 24, rows, sigils, fields, 0);
    MeasuredPageEnds(data, off, sigils, |rows|, fields, |Join(sectors)|);
  }

  lemma {:induction false} MeasuredPageEnds(data: Bytes, off: nat, sigils: Bytes, n: nat, fields: nat, len: nat)
    requires off + 24 <= |data| && off % 8 == 0 && off + RoundUp(28 + len, 8) <= |data| && RoundUp(28 + len, 8) < U32
    requires ReadLe(data[off..off + 4]) == MAGIC_PAGE
    requires ReadLe(data[off + 16..off + 20]) == n && ReadLe(data[off + 20..off + 22]) == fields
    requires MeasureColumns(data, off + 24, n, sigils, 0, fields) == Some(off + 24 + len)
    requires At(data, off + 24 + len, Le(28 + len, 4))
    ensures PageEnd(data, off, sigils) == Some(off + RoundUp(28 + len, 8))
  {
    hide MeasureColumns, Le;
    Pow256Values();
    AtLe(data, off + 24 + len, 28 + len, 4);
    hide ReadLe, RoundUp, At;
    RoundUpShift(off, 28 + len);
  }

  // ── Polling pages ─────────────────────────────────────────────────────────

  /** The offsets of the complete pages from `cursor` on. */
  function PagesFrom(data: Bytes, cursor: nat, sigils: Bytes): seq<nat>
    decreases |data| - cursor
  {
    match PageEnd(data, cursor, sigils)
    case None => []
    case Some(end) => [cursor] + PagesFrom(data, end, sigils)
  }

  class PaxStreamReader {
    const data: Bytes
    const sigils: Bytes
    const dataStart: nat
    var pageCursor: nat

    constructor (data: Bytes, sigils: Bytes, dataStart: nat)
      ensures this.data == data && this.sigils == sigils && this.dataStart == dataStart && pageCursor == dataStart
    {
      this.data, this.sigils, this.dataStart, this.pageCursor := data, sigils, dataStart, dataStart;
    }

    /** `poll_next_page`: the pages still to come shrink by the one returned. */
    method PollNextPage() returns (page: Option<nat>)
      modifies this
      ensures page.Some? ==> PagesFrom(data, old(pageCursor), sigils) == [page.value] + PagesFrom(data, pageCursor, sigils)
      ensures page.None? ==> PagesFrom(data, old(pageCursor), sigils) == [] && pageCursor == old(pageCursor)
    {
      var end := CompletePageEnd(data, pageCursor, sigils);
      if end.None? { return None; }
      page := Some(pageCursor);
      pageCursor := end.value;
    }

    /** `complete_record_count` */
    method CompleteRecordCount() returns (n: nat)
      ensures n == RecordsIn(data, PagesFrom(data, dataStart, sigils))
    {
      n := 0;
      var off := dataStart;
      var end := CompletePageEnd(data, off, sigils);
      while end.Some?
        invariant end == PageEnd(data, off, sigils)
        invariant n + RecordsIn(data, PagesFrom(data, off, sigils)) == RecordsIn(data, PagesFrom(data, dataStart, sigils))
        decreases |data| - off
      {
        n := n + ReadLe(data[off + 16..off + 20]);
        assert ([off] + PagesFrom(data, end.value, sigils))[1..] == PagesFrom(data, end.value, sigils);
        off := end.value;
        end := CompletePageEnd(data, off, sigils);
      }
    }
  }

  function RecordsIn(data: Bytes, pages: seq<nat>): nat
  {
    if |pages| == 0 then 0
    else (if pages[0] + 20 <= |data| then ReadLe(data[pages[0] + 16..pages[0] + 20]) else 0) + RecordsIn(data, pages[1..])
  }

  /** The pages of a stream, that its fields can describe. */
  ghost predicate Streamed(groups: seq<seq<Row>>, fields: nat, sigils: Bytes)
  {
    && fields < U16 && PagesOf(groups, fields, sigils).Ok?
    && forall k :: 0 <= k < |groups| ==> |groups[k]| < U32 && |PagesOf(groups, fields, sigils).value[k]| < U32
  }

  lemma {:induction false} PagesAligned(groups: seq<seq<Row>>, fields: nat, sigils: Bytes, k: nat)
    requires PagesOf(groups, fields, sigils).Ok? && k <= |groups|
    ensures |Join(PagesOf(groups, fields, sigils).value[..k])| % 8 == 0
    decreases k
  {
    hide Page, RowCount, PagesOf;
    if k > 0 {
      var pages := PagesOf(groups, fields, sigils).value;
      PagesAligned(groups, fields, sigils, k - 1);
      PageIs(groups, fields, sigils, k - 1);
      PageLenAligned(k - 1, RowCount(groups[..k - 1]), fields, sigils, groups[k - 1]);
      assert pages[..k][..k - 1] == pages[..k - 1];
    } else {
      assert PagesOf(groups, fields, sigils).value[..0] == [];
    }
  }

  lemma {:induction false} PageLenAligned(index: nat, start: nat, fields: nat, sigils: Bytes, rows: seq<Row>)
    requires Page(index, start, fields, sigils, rows).Ok?
    ensures |Page(index, start, fields, sigils, rows).value| % 8 == 0
  {
  }

  /** In the whole stream, page `k` is found where it starts and ends where page `k + 1` starts. */
  lemma {:induction false} StreamPageEnds(data: Bytes, base: nat, groups: seq<seq<Row>>, fields: nat, sigils: Bytes,
      k: nat)
    requires Streamed(groups, fields, sigils) && base % 8 == 0 && k < |groups|
    requires At(data, base, Join(PagesOf(groups, fields, sigils).value))
    ensures var pages := PagesOf(groups, fields, sigils).value;
            PageEnd(data, base + |Join(pages[..k])|, sigils) == Some(base + |Join(pages[..k + 1])|)
  {
    hide Page, RowCount, PagesOf, Join, PageEnd;
    var pages := PagesOf(groups, fields, sigils).value;
    JoinAt(data, base, pages, k);
    PageIs(groups, fields, sigils, k);
    PagesAligned(groups, fields, sigils, k);
    WrittenPageEnds(data, base + |Join(pages[..k])|, k, RowCount(groups[..k]), fields, sigils, groups[k]);
  }

  /** In a truncated stream, page `k` is found exactly when all of it was kept. */
  lemma {:induction false} CutPageEnds(data: Bytes, base: nat, groups: seq<seq<Row>>, fields: nat, sigils: Bytes,
      k: nat, cut: nat)
    requires Streamed(groups, fields, sigils) && base % 8 == 0 && k < |groups| && cut <= |data|
    requires At(data, base, Join(PagesOf(groups, fields, sigils).value))
    ensures var pages := PagesOf(groups, fields, sigils).value;
            var end := base + |Join(pages[..k + 1])|;
            PageEnd(data[..cut], base + |Join(pages[..k])|, sigils) == if end <= cut then Some(end) else None
  {
    hide Page, RowCount, PagesOf, Join, PageEnd;
    var pages := PagesOf(groups, fields, sigils).value;
    var off, end := base + |Join(pages[..k])|, base + |Join(pages[..k + 1])|;
    assert data == data[..cut] + data[cut..];
    StreamPageEnds(data, base, groups, fields, sigils, k);
    if PageEnd(data[..cut], off, sigils).Some? {
      PageEndGrows(data[..cut], data[cut..], off, sigils);
    }
    if end <= cut {
      JoinAt(data, base, pages, k);
      PageIs(groups, fields, sigils, k);
      PagesAligned(groups, fields, sigils, k);
      assert data[..cut][off..end] == data[off..end];
      WrittenPageEnds(data[..cut], off, k, RowCount(groups[..k]), fields, sigils, groups[k]);
    }
  }

  /** The number of pages that end within the first `cut` bytes. */
  function WholePages(base: nat, pages: seq<Bytes>, k: nat, cut: nat): (n: nat)
    requires k <= |pages|
    ensures k <= n <= |pages|
    decreases |pages| - k
  {
    if k < |pages| && base + |Join(pages[..k + 1])| <= cut then WholePages(base, pages, k + 1, cut) else k
  }

  /** The starts of pages `k` to `n`. */
  function PageStarts(base: nat, pages: seq<Bytes>, k: nat, n: nat): (s: seq<nat>)
    requires k <= n <= |pages|
    ensures |s| == n - k && forall j :: 0 <= j < n - k ==> s[j] == base + |Join(pages[..k + j])|
    decreases n - k
  {
    if k == n then [] else [base + |Join(pages[..k])|] + PageStarts(base, pages, k + 1, n)
  }

  /**
   Polling a stream cut off anywhere in its pages yields exactly the pages that were kept whole, in
   order, and never a partial one.
   */
  lemma {:induction false} PollsWholePages(data: Bytes, base: nat, groups: seq<seq<Row>>, fields: nat,
      sigils: Bytes, cut: nat, k: nat)
    requires Streamed(groups, fields, sigils) && base % 8 == 0 && k <= |groups|
    requires At(data, base, Join(PagesOf(groups, fields, sigils).value))
    requires cut <= base + |Join(PagesOf(groups, fields, sigils).value)|
    ensures var pages := PagesOf(groups, fields, sigils).value;
            PagesFrom(data[..cut], base + |Join(pages[..k])|, sigils) ==
            PageStarts(base, pages, k, WholePages(base, pages, k, cut))
    decreases |groups| - k
  {
    hide PagesOf, Join, PageEnd;
    var pages := PagesOf(groups, fields, sigils).value;
    if k < |groups| {
      CutPageEnds(data, base, groups, fields, sigils, k, cut);
      if base + |Join(pages[..k + 1])| <= cut {
        PollsWholePages(data, base, groups, fields, sigils, cut, k + 1);
      }
    } else {
      assert pages[..k] == pages;
      NothingAtEnd(data[..cut], base + |Join(pages)|, sigils);
    }
  }

  lemma {:induction false} NothingAtEnd(data: Bytes, off: nat, sigils: Bytes)
    requires |data| <= off
    ensures PageEnd(data, off, sigils) == None
  {
  }

  // ── Complete row objects ──────────────────────────────────────────────────

  /** `complete_nyxo_end` */
  function ObjectEnd(data: Bytes, off: nat): (end: Option<nat>)
    ensures end.Some? ==> off + 8 <= end.value <= |data|
  {
    if off + 8 > |data| || ReadLe(data[off..off + 4]) != MAGIC_OBJ then None
    else
      var len := ReadLe(data[off + 4..off + 8]);
      if len < 8 || off + len > |data| then None else Some(off + len)
  }

  /** An object found in a prefix is found, with the same end, however the file grows. */
  lemma {:induction false} ObjectEndGrows(data: Bytes, more: Bytes, off: nat)
    requires ObjectEnd(data, off).Some?
    ensures ObjectEnd(data + more, off) == ObjectEnd(data, off)
  {
    assert (data + more)[off..off + 4] == data[off..off + 4];
    assert (data + more)[off + 4..off + 8] == data[off + 4..off + 8];
  }

  function ObjectsFrom(data: Bytes, cursor: nat): seq<nat>
    decreases |data| - cursor
  {
    match ObjectEnd(data, cursor)
    case None => []
    case Some(end) => [cursor] + ObjectsFrom(data, end)
  }

  class StreamReader {
    const data: Bytes
    const dataStart: nat
    var cursor: nat

    constructor (data: Bytes, dataStart: nat)
      ensures this.data == data && this.dataStart == dataStart && cursor == dataStart
    {
      this.data, this.dataStart, this.cursor := data, dataStart, dataStart;
    }

    /** `poll_next_offset` */
    method PollNextOffset() returns (found: Option<nat>)
      modifies this
      ensures found.Some? ==> ObjectsFrom(data, old(cursor)) == [found.value] + ObjectsFrom(data, cursor)
      ensures found.None? ==> ObjectsFrom(data, old(cursor)) == [] && cursor == old(cursor)
    {
      var end := ObjectEnd(data, cursor);
      if end.None? { return None; }
      found := Some(cursor);
      cursor := end.value;
    }
  }

  /** The bytes of an object: its magic, its own length and whatever follows. */
  ghost predicate IsObject(obj: Bytes)
  {
    8 <= |obj| < U32 && ReadLe(obj[0..4]) == MAGIC_OBJ && ReadLe(obj[4..8]) == |obj|
  }

  lemma {:induction false} ObjectEndsAt(data: Bytes, off: nat, obj: Bytes)
    requires IsObject(obj) && At(data, off, obj)
    ensures ObjectEnd(data, off) == Some(off + |obj|)
  {
    AtSlice(data, off, obj, 0, 4);
    AtSlice(data, off, obj, 4, 8);
  }

  /** Polling a row stream cut off anywhere yields exactly the objects that were kept whole, in order. */
  lemma {:induction false} PollsWholeObjects(data: Bytes, base: nat, objects: seq<Bytes>, cut: nat, k: nat)
    requires (forall j :: 0 <= j < |objects| ==> IsObject(objects[j])) && k <= |objects|
    requires At(data, base, Join(objects)) && cut <= base + |Join(objects)|
    ensures ObjectsFrom(data[..cut], base + |Join(objects[..k])|) ==
            PageStarts(base, objects, k, WholePages(base, objects, k, cut))
    decreases |objects| - k
  {
    hide Join, ObjectEnd, IsObject;
    if k < |objects| {
      JoinAt(data, base, objects, k);
      CutObjectEnds(data, base + |Join(objects[..k])|, objects[k], cut);
      if base + |Join(objects[..k + 1])| <= cut {
        PollsWholeObjects(data, base, objects, cut, k + 1);
      }
    } else {
      assert objects[..k] == objects;
      NoObjectAtEnd(data[..cut], base + |Join(objects)|);
    }
  }

  lemma {:induction false} CutObjectEnds(data: Bytes, off: nat, obj: Bytes, cut: nat)
    requires IsObject(obj) && At(data, off, obj) && cut <= |data|
    ensures ObjectEnd(data[..cut], off) == if off + |obj| <= cut then Some(off + |obj|) else None
  {
    hide ObjectEnd, IsObject;
    assert data == data[..cut] + data[cut..];
    ObjectEndsAt(data, off, obj);
    if ObjectEnd(data[..cut], off).Some? {
      ObjectEndGrows(data[..cut], data[cut..], off);
    }
    if off + |obj| <= cut {
      assert data[..cut][off..off + |obj|] == data[off..off + |obj|];
      ObjectEndsAt(data[..cut], off, obj);
    }
  }

  lemma {:induction false} NoObjectAtEnd(data: Bytes, off: nat)
    requires |data| <= off
    ensures ObjectEnd(data, off) == None
  {
  }
}
