/**
 The streaming PAX writer. Rows are pushed one by one and flushed page by page, at the page size or
 whenever the caller asks; sealing gives a file of exactly the rows pushed, in order, and with no explicit
 flush the very bytes of the batch writer.
 */
module PaxStream {
  import opened Bytes
  import opened CompactSchema
  import opened SchemaHeader
  import opened Preamble
  import opened Columns
  import opened TableLayout
  import opened PaxReads
  import opened LayoutIndependence

  // ── A stream as a value: the pages written and the rows waiting ───────────

  datatype Stream = Stream(groups: seq<seq<Row>>, pending: seq<Row>)

  /** `flush_page`: the waiting rows become a page, unless they cannot be encoded. */
  function FlushPage(s: Stream, fields: nat, sigils: Bytes): Stream
  {
    if Page(|s.groups|, RowCount(s.groups), fields, sigils, s.pending).Err? then s
    else Stream(s.groups + [s.pending], [])
  }

  /** `push_record` */
  function Pushed(s: Stream, row: Row, pageSize: nat, fields: nat, sigils: Bytes): Stream
  {
    var next := s.(pending := s.pending + [row]);
    if |next.pending| >= pageSize then FlushPage(next, fields, sigils) else next
  }

  /** `flush_pending` */
  function Flushed(s: Stream, fields: nat, sigils: Bytes): Stream
  {
    if |s.pending| == 0 then s else FlushPage(s, fields, sigils)
  }

  /** Every row the stream has taken, in order. */
  function Rows(s: Stream): seq<Row> { Flatten(s.groups) + s.pending }

  /** The groups of the file that sealing the stream gives. */
  function Sealed(s: Stream): (g: seq<seq<Row>>)
  {
    if |s.pending| == 0 then s.groups else s.groups + [s.pending]
  }

  datatype Step = Push(row: Row) | Flush

  function Run(steps: seq<Step>, pageSize: nat, fields: nat, sigils: Bytes): Stream
  {
    if |steps| == 0 then Stream([], [])
    else
      var s := Run(steps[..|steps| - 1], pageSize, fields, sigils);
      match steps[|steps| - 1]
      case Push(row) => Pushed(s, row, pageSize, fields, sigils)
      case Flush => Flushed(s, fields, sigils)
  }

  function PushedRows(steps: seq<Step>): seq<Row>
  {
    if |steps| == 0 then []
    else
      var rows := PushedRows(steps[..|steps| - 1]);
      match steps[|steps| - 1]
      case Push(row) => rows + [row]
      case Flush => rows
  }

  lemma {:induction false} FlushKeepsRows(s: Stream, fields: nat, sigils: Bytes)
    ensures Rows(FlushPage(s, fields, sigils)) == Rows(s)
  {
    GroupsSnoc(s.groups, s.pending);
    assert Flatten(s.groups) + s.pending + [] == Flatten(s.groups) + s.pending;
  }

  /** A flush never leaves an empty page, nor one that could not be encoded. */
  ghost predicate Written(s: Stream, fields: nat, sigils: Bytes)
  {
    PagesOf(s.groups, fields, sigils).Ok? && forall k :: 0 <= k < |s.groups| ==> |s.groups[k]| > 0
  }

  lemma {:induction false} FlushKeepsWritten(s: Stream, fields: nat, sigils: Bytes)
    requires Written(s, fields, sigils) && |s.pending| > 0
    ensures Written(FlushPage(s, fields, sigils), fields, sigils)
  {
    hide Page, RowCount, PagesOf;
    PagesSnoc(s.groups, s.pending, fields, sigils);
  }

  /**
   After any pushes and flushes, in any order, the pages and the waiting rows are exactly the rows pushed:
   none is lost, repeated or moved. The pages are non-empty, each starting at the record where the pages
   before it end.
   */
  lemma {:induction false} RunTiles(steps: seq<Step>, pageSize: nat, fields: nat, sigils: Bytes)
    requires pageSize > 0
    ensures var s := Run(steps, pageSize, fields, sigils);
            Rows(s) == PushedRows(steps) && Written(s, fields, sigils)
    ensures Flatten(Sealed(Run(steps, pageSize, fields, sigils))) == PushedRows(steps)
  {
    hide Page, RowCount, PagesOf, FlushPage, Flatten;
    var s' := Run(steps, pageSize, fields, sigils);
    if |steps| == 0 {
      NothingWritten(fields, sigils);
    } else {
      var s := Run(steps[..|steps| - 1], pageSize, fields, sigils);
      RunTiles(steps[..|steps| - 1], pageSize, fields, sigils);
      match steps[|steps| - 1]
      case Push(row) =>
        var next := s.(pending := s.pending + [row]);
        assert Rows(next) == Rows(s) + [row];
        FlushKeepsRows(next, fields, sigils);
        FlushKeepsWritten(next, fields, sigils);
      case Flush =>
        FlushKeepsRows(s, fields, sigils);
        if |s.pending| > 0 { FlushKeepsWritten(s, fields, sigils); }
    }
    GroupsSnoc(s'.groups, s'.pending);
    assert Flatten(s'.groups) + [] == Flatten(s'.groups);
  }

  lemma {:induction false} NothingWritten(fields: nat, sigils: Bytes)
    ensures Written(Stream([], []), fields, sigils) && Rows(Stream([], [])) == []
  {
  }

  // ── The writer ────────────────────────────────────────────────────────────

  datatype PageMeta = PageMeta(index: nat, start: nat, count: nat, off: nat, len: nat)

  /** `build_pax_tail`, up to the footer. */
  function MetaEntries(pages: seq<PageMeta>): Bytes
  {
    if |pages| == 0 then []
    else
      var p := pages[|pages| - 1];
      MetaEntries(pages[..|pages| - 1]) + PageEntry(p.index, p.start, p.count, p.off, p.len)
  }

  method BuildPaxTail(pages: seq<PageMeta>, tailPtr: nat, n: nat, pageSize: nat) returns (tail: Bytes)
    ensures tail == MetaEntries(pages) + PaxFooter(tailPtr, n, |pages|, pageSize)
  {
    hide PageEntry, PaxFooter;
    tail := [];
    for k := 0 to |pages|
      invariant tail == MetaEntries(pages[..k])
    {
      var p := pages[k];
      assert pages[..k + 1][..k] == pages[..k];
      tail := tail + PageEntry(p.index, p.start, p.count, p.off, p.len);
    }
    assert pages[..|pages|] == pages;
    tail := tail + PaxFooter(tailPtr, n, |pages|, pageSize);
  }

  class PaxStreamWriter {
    const keys: seq<Bytes>
    const sigils: Bytes
    const header: Bytes
    const dictHash: Hash
    const pageSize: nat
    var pending: seq<Row>
    var data: Bytes
    var pages: seq<PageMeta>
    var nextPageIndex: nat
    var nextRecordStart: nat
    ghost var groups: seq<seq<Row>>

    ghost predicate Valid()
      reads this
    {
      && pageSize > 0 && header == BasicHeader(keys, sigils)
      && Written(Stream(groups, pending), |keys|, sigils)
      && data == Join(PagesOf(groups, |keys|, sigils).value)
      && MetaEntries(pages) == PageEntries(groups, PagesOf(groups, |keys|, sigils).value, 32 + |header|)
      && nextPageIndex == |groups| == |pages| && nextRecordStart == RowCount(groups)
    }

    ghost function State(): Stream
      reads this
    {
      Stream(groups, pending)
    }

    /** `new`, which refuses a page size of zero and a schema without keys. */
    static method New(keys: seq<Bytes>, sigils: Bytes, pageSize: nat, hash: Hash) returns (r: Result<PaxStreamWriter>)
      ensures r.Err? <==> pageSize == 0 || |keys| == 0
      ensures r.Err? ==> r.error == ParseError
      ensures r.Ok? ==> var w := r.value;
                        && fresh(w) && w.Valid() && w.State() == Run([], pageSize, |keys|, sigils)
                        && w.keys == keys && w.sigils == sigils && w.pageSize == pageSize && w.dictHash == hash
    {
      if pageSize == 0 { return Err(ParseError); }
      if |keys| == 0 { return Err(ParseError); }
      var w := new PaxStreamWriter(keys, sigils, pageSize, hash);
      r := Ok(w);
    }

    constructor (keys: seq<Bytes>, sigils: Bytes, pageSize: nat, hash: Hash)
      requires pageSize > 0
      ensures Valid() && State() == Run([], pageSize, |keys|, sigils)
      ensures this.keys == keys && this.sigils == sigils && this.pageSize == pageSize && dictHash == hash
    {
      var schema := BuildSchema(keys, sigils);
      this.keys, this.sigils, this.header, this.dictHash, this.pageSize := keys, sigils, schema, hash, pageSize;
      pending, data, pages, nextPageIndex, nextRecordStart := [], [], [], 0, 0;
      groups := [];
      new;
      NothingWritten(|keys|, sigils);
      NoPages(|keys|, sigils, 32 + |header|, pageSize);
    }

    method FlushPageBytes() returns (r: Result<Bytes>)
      requires Valid() && |pending| > 0
      modifies this
      ensures Valid() && State() == FlushPage(old(State()), |keys|, sigils)
      ensures r == Page(|old(groups)|, RowCount(old(groups)), |keys|, sigils, old(pending))
      ensures r.Ok? ==> data == old(data) + r.value
    {
      hide Page, RowCount, PagesOf, PageEntries, PageEntry, Join, BasicHeader;
      var base := 32 + |header|;
      var pageOff := base + |data|;
      var page := EncodePage(nextPageIndex, nextRecordStart, |keys|, sigils, pending);
      if page.Err? { return page; }
      ghost var written := PagesOf(groups, |keys|, sigils).value;
      PagesSnoc(groups, pending, |keys|, sigils);
      PageEntriesSnoc(groups, pending, written, page.value, base);
      JoinSnoc(written, page.value);
      GroupsSnoc(groups, pending);
      var meta := PageMeta(nextPageIndex, nextRecordStart, |pending|, pageOff, |page.value|);
      assert (pages + [meta])[..|pages|] == pages;
      pages := pages + [meta];
      data := data + page.value;
      nextPageIndex := nextPageIndex + 1;
      nextRecordStart := nextRecordStart + |pending|;
      groups := groups + [pending];
      pending := [];
      r := page;
    }

    method PushRecord(row: Row) returns (r: Result<Option<Bytes>>)
      requires Valid()
      modifies this
      ensures Valid() && State() == Pushed(old(State()), row, pageSize, |keys|, sigils)
      ensures r.Err? ==> Page(|old(groups)|, RowCount(old(groups)), |keys|, sigils, old(pending) + [row]) == Err(r.error)
      ensures r.Ok? ==> data == old(data) + (if r.value.Some? then r.value.value else [])
      ensures r == Ok(None) <==> |old(pending)| + 1 < pageSize
      ensures r.Ok? && r.value.Some? ==> pending == []
    {
      hide Page, RowCount, PagesOf, PageEntries, Join, BasicHeader;
      pending := pending + [row];
      if |pending| >= pageSize {
        var page := FlushPageBytes();
        if page.Err? { return Err(page.error); }
        return Ok(Some(page.value));
      }
      assert data == data + [];
      r := Ok(None);
    }

    method FlushPending() returns (r: Result<Option<Bytes>>)
      requires Valid()
      modifies this
      ensures Valid() && State() == Flushed(old(State()), |keys|, sigils)
      ensures r.Ok? ==> data == old(data) + (if r.value.Some? then r.value.value else []) && pending == []
    {
      hide Page, RowCount, PagesOf, PageEntries, Join, BasicHeader;
      if |pending| == 0 { return Ok(None); }
      var page := FlushPageBytes();
      if page.Err? { return Err(page.error); }
      r := Ok(Some(page.value));
    }

    /** `finish_stream`: the sealed file of the stream's groups. */
    method FinishStream() returns (r: Result<Bytes>)
      requires Valid()
      modifies this
      ensures Valid() && r == SealedPax(keys, sigils, Sealed(old(State())), pageSize, dictHash)
    {
      hide Page, RowCount, PagesOf, PageEntries, PageEntry, Join, BasicHeader, PreambleBytes, PaxFooter;
      if |pending| > 0 {
        ghost var before := groups;
        PagesSnoc(groups, pending, |keys|, sigils);
        var page := FlushPageBytes();
        if page.Err? { return Err(page.error); }
      }
      var tailPtr := 32 + |header| + |data|;
      var tail := BuildPaxTail(pages, tailPtr, nextRecordStart + |pending|, pageSize);
      ghost var head := PreambleBytes(VERSION, PaxFlags(), dictHash(header), tailPtr) + header + data;
      assert head + MetaEntries(pages) + PaxFooter(tailPtr, nextRecordStart, |pages|, pageSize) == head + tail;
      r := Ok(PreambleBytes(VERSION, PaxFlags(), dictHash(header), tailPtr) + header + data + tail);
    }
  }

  // ── Streaming equals batch ────────────────────────────────────────────────

  lemma {:induction false} GroupsFull(group: seq<Row>, rest: seq<Row>, pageSize: nat)
    requires 0 < pageSize == |group|
    ensures Groups(group + rest, pageSize) == [group] + Groups(rest, pageSize)
  {
    if |rest| == 0 {
      assert group + rest == group;
    } else {
      assert (group + rest)[..pageSize] == group && (group + rest)[pageSize..] == rest;
    }
  }

  /** What streaming all the rows of a table gives. */
  function Streamed(keys: seq<Bytes>, rows: seq<Row>, pageSize: nat, hash: Hash): Result<Bytes>
  {
    if |keys| == 0 then Err(ParseError) else Pax(keys, rows, pageSize, hash)
  }

  /** Streaming agrees with the batch writer, which also accepts a schema without keys, exactly when there is a key or no page size. */
  lemma {:induction false} StreamAgreesIff(keys: seq<Bytes>, rows: seq<Row>, pageSize: nat, hash: Hash)
    ensures Streamed(keys, rows, pageSize, hash) == Pax(keys, rows, pageSize, hash) <==> |keys| > 0 || pageSize == 0
  {
    hide PaxFile, Groups, SigilsForKeys;
    if |keys| == 0 && pageSize > 0 { KeylessPages(Groups(rows, pageSize), SigilsForKeys(0, rows)); }
  }

  lemma {:induction false} KeylessPages(groups: seq<seq<Row>>, sigils: Bytes)
    ensures PagesOf(groups, 0, sigils).Ok?
  {
    hide PageBytes, RowCount;
    if |groups| > 0 { KeylessPages(groups[..|groups| - 1], sigils); }
  }

  /** `from_rows` and `finish_stream`: with keys, the same bytes, or the same error, as the batch writer. */
  method StreamRows(keys: seq<Bytes>, rows: seq<Row>, pageSize: nat, hash: Hash) returns (r: Result<Bytes>)
    ensures r == Streamed(keys, rows, pageSize, hash)
  {
    hide Page, RowCount, PagesOf, PageEntries, Join, BasicHeader, Groups, SealedPax, SigilsForKeys;
    var sigils := SigilsForKeys(|keys|, rows);
    var made := PaxStreamWriter.New(keys, sigils, pageSize, hash);
    if made.Err? { return Err(made.error); }
    var w := made.value;
    assert rows[0..] == rows && [] + rows == rows && [] + Groups(rows, pageSize) == Groups(rows, pageSize);
    for i := 0 to |rows|
      invariant fresh(w) && w.Valid() && w.keys == keys && w.sigils == sigils && w.pageSize == pageSize && w.dictHash == hash
      invariant |w.pending| < pageSize
      invariant w.groups + Groups(w.pending + rows[i..], pageSize) == Groups(rows, pageSize)
    {
      ghost var groups, pending := w.groups, w.pending + [rows[i]];
      assert w.pending + rows[i..] == pending + rows[i + 1..];
      var pushed := w.PushRecord(rows[i]);
      Regroup(groups, pending, rows[i + 1..], pageSize);
      if pushed.Err? {
        PageFails(groups, pending, Groups(rows[i + 1..], pageSize), keys, sigils, pageSize, hash);
        return Err(pushed.error);
      }
    }
    GroupsEnd(w.pending, rows, pageSize);
    assert w.groups + [] == w.groups;
    assert Sealed(w.State()) == Groups(rows, pageSize);
    r := w.FinishStream();
  }

  /** A full page may be set aside. */
  lemma {:induction false} Regroup(groups: seq<seq<Row>>, pending: seq<Row>, rest: seq<Row>, pageSize: nat)
    requires 0 < pageSize && |pending| <= pageSize
    ensures |pending| == pageSize ==> groups + Groups(pending + rest, pageSize) == groups + [pending] + Groups([] + rest, pageSize)
                                      && groups + Groups(pending + rest, pageSize) == groups + [pending] + Groups(rest, pageSize)
  {
    if |pending| == pageSize {
      GroupsFull(pending, rest, pageSize);
      assert [] + rest == rest;
      assert groups + ([pending] + Groups(rest, pageSize)) == groups + [pending] + Groups(rest, pageSize);
    }
  }

  lemma {:induction false} GroupsEnd(pending: seq<Row>, rows: seq<Row>, pageSize: nat)
    requires |pending| < pageSize
    ensures Groups(pending + rows[|rows|..], pageSize) == if |pending| == 0 then [] else [pending]
  {
    assert pending + rows[|rows|..] == pending;
  }

  lemma {:induction false} PageFails(groups: seq<seq<Row>>, group: seq<Row>, more: seq<seq<Row>>, keys: seq<Bytes>,
      sigils: Bytes, pageSize: nat, hash: Hash)
    requires PagesOf(groups, |keys|, sigils).Ok? && Page(|groups|, RowCount(groups), |keys|, sigils, group).Err?
    ensures SealedPax(keys, sigils, groups + [group] + more, pageSize, hash) ==
            Err(Page(|groups|, RowCount(groups), |keys|, sigils, group).error)
  {
    hide Page, RowCount, PagesOf;
    PagesSnoc(groups, group, |keys|, sigils);
    PagesFail(groups + [group], more, |keys|, sigils);
  }
}
