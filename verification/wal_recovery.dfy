/**
 The write-ahead log of spans: a header, then one row object a span. Appending keeps an index in memory;
 recovery rebuilds it from whatever bytes survived.
 */
module WalRecovery {
  import opened Bytes
  import opened Bitmask
  import opened CompactSchema
  import opened SchemaHeader
  import opened Preamble
  import opened TailIndex
  import opened FileReader
  import opened RowObject
  import opened RowFile
  import opened RowWriter
  import opened Span
  import opened ForwardReaders
  import CompactRefines
  import CompactRecord
  import Columns

  const MAGIC_WAL: nat := 0x5753_584E
  const MAX_RECORD_BYTES: nat := 10485760

  // ── The log as bytes ──────────────────────────────────────────────────────

  /** `build_wal_schema_bytes`: the span keys, every sigil still the default. */
  function WalSchema(): Bytes { BasicHeader(SpanKeys(), []) }

  function WalHeader(): Bytes
  {
    Le(MAGIC_WAL, 4) + Le(0x0100, 2) + Le(1, 2) + Le(|WalSchema()|, 4) + WalSchema()
  }

  function DataStart(): nat { |WalHeader()| }

  function SpanObjects(spans: seq<SpanFields>): (o: seq<Bytes>)
    ensures |o| == |spans| && forall k :: 0 <= k < |o| ==> o[k] == SpanObject(spans[k])
  {
    seq(|spans|, k requires 0 <= k < |spans| => SpanObject(spans[k]))
  }

  /** An untorn log of spans. */
  function Log(spans: seq<SpanFields>): Bytes { WalHeader() + Join(SpanObjects(spans)) }

  datatype WalEntry = WalEntry(trace: nat, span: nat, offset: nat)

  function IndexEntry(f: SpanFields, off: nat): WalEntry { WalEntry(IdentityOf(f).trace, IdentityOf(f).span, off) }

  /** The index entries of spans `k` to `n`, whose objects start at `base`. */
  function Entries(spans: seq<SpanFields>, base: nat, k: nat, n: nat): (e: seq<WalEntry>)
    requires k <= n <= |spans|
    ensures |e| == n - k
  {
    seq(n - k, j requires 0 <= j < n - k => EntryAt(spans, base, k + j))
  }

  function EntryAt(spans: seq<SpanFields>, base: nat, k: nat): WalEntry
    requires k < |spans|
  {
    IndexEntry(spans[k], base + |Join(SpanObjects(spans)[..k])|)
  }

  lemma {:induction false} EntriesStep(spans: seq<SpanFields>, base: nat, k: nat, n: nat)
    requires k < n <= |spans|
    ensures Entries(spans, base, k, n) == [EntryAt(spans, base, k)] + Entries(spans, base, k + 1, n)
  {
    hide EntryAt;
  }

  lemma {:induction false} EntriesPrefix(spans: seq<SpanFields>, base: nat, n: nat)
    requires n <= |spans|
    ensures Entries(spans, base, 0, n) <= Entries(spans, base, 0, |spans|)
  {
    hide EntryAt;
  }

  // ── Recovery ──────────────────────────────────────────────────────────────

  datatype Recovered = Recovered(index: seq<WalEntry>, count: nat)

  /** The length of the record at `pos`, when one lies there whole. */
  function WholeRecord(file: Bytes, pos: nat): (len: Option<nat>)
    ensures len.Some? ==> 8 <= len.value && pos + len.value <= |file|
  {
    if pos + 8 > |file| || ReadLe(file[pos..pos + 4]) != CompactRecord.MAGIC_OBJ then None
    else
      var len := ReadLe(file[pos + 4..pos + 8]);
      if len < 8 || len > MAX_RECORD_BYTES || pos + len > |file| then None else Some(len)
  }

  /** The entry of a record, when its identity can be read. */
  function EntryIn(file: Bytes, pos: nat, len: nat): (e: seq<WalEntry>)
    requires pos + len <= |file|
    ensures forall k :: 0 <= k < |e| ==> e[k].offset == pos
  {
    match ExtractIdentity(file[pos..pos + len])
    case None => []
    case Some(id) => [WalEntry(id.trace, id.span, pos)]
  }

  /** The record walk of `recover`, from `pos` on. */
  function RecoverFrom(file: Bytes, pos: nat): (r: Recovered)
    ensures forall k :: 0 <= k < |r.index| ==> pos <= r.index[k].offset
    decreases |file| - pos
  {
    match WholeRecord(file, pos)
    case None => Recovered([], 0)
    case Some(len) =>
      var rest := RecoverFrom(file, pos + len);
      Recovered(EntryIn(file, pos, len) + rest.index, rest.count + 1)
  }

  /** `recover`, of the whole file. */
  function RecoverFile(file: Bytes): Result<Recovered>
  {
    if |file| < 8 then Err(IoError)
    else if ReadLe(file[0..4]) != MAGIC_WAL then Err(BadMagic)
    else if |file| < 12 then Err(IoError)
    else Ok(RecoverFrom(file, 12 + ReadLe(file[8..12])))
  }

  /** A record whose length its four bytes can say. */
  predicate Storable(f: SpanFields) { |SpanObject(f)| < U32 }

  ghost predicate AllStorable(spans: seq<SpanFields>) { forall k :: 0 <= k < |spans| ==> Storable(spans[k]) }

  /** Small enough for the guard that recovery, and nothing else, puts on a record's length. */
  predicate Guarded(f: SpanFields) { |SpanObject(f)| <= MAX_RECORD_BYTES }

  /** The number of records, from `k` up to `n`, in front of the first one over the guard. */
  function UpToGuard(spans: seq<SpanFields>, k: nat, n: nat): (m: nat)
    requires k <= n <= |spans|
    ensures k <= m <= n
    decreases n - k
  {
    if k < n && Guarded(spans[k]) then UpToGuard(spans, k + 1, n) else k
  }

  lemma {:induction false} GuardedUpTo(spans: seq<SpanFields>, k: nat, n: nat)
    requires k <= n <= |spans|
    ensures var m := UpToGuard(spans, k, n);
            (m < n ==> !Guarded(spans[m])) && forall j :: k <= j < m ==> Guarded(spans[j])
    decreases n - k
  {
    hide Guarded;
    if k < n && Guarded(spans[k]) { GuardedUpTo(spans, k + 1, n); }
  }

  lemma {:induction false} SpanIsObject(f: SpanFields)
    requires Storable(f)
    ensures IsObject(SpanObject(f)) && 8 <= |SpanObject(f)| < U32
  {
    hide SpanWrites, Values, MaskBytes, TableBytes, Le;
    var obj, w := SpanObject(f), SpanWrites(f);
    WholeAt(obj);
    ObjectParts(obj, 0, w, 10);
    Pow256Values();
    AtLe(obj, 0, CompactRecord.MAGIC_OBJ, 4);
    AtLe(obj, 4, |obj|, 4);
  }

  /** One step of recovery over a span that lies whole in the file, and over one that does not. */
  lemma {:induction false} RecoverStep(file: Bytes, pos: nat, f: SpanFields)
    requires Guarded(f) && At(file, pos, SpanObject(f))
    ensures var rest := RecoverFrom(file, pos + |SpanObject(f)|);
            RecoverFrom(file, pos) == Recovered([IndexEntry(f, pos)] + rest.index, rest.count + 1)
  {
    hide SpanObject, ExtractIdentity, ReadLe, IdentityOf;
    SpanIsObject(f);
    IdentityReads(f);
    AtSlice(file, pos, SpanObject(f), 0, 4);
    AtSlice(file, pos, SpanObject(f), 4, 8);
    ObjectWhole(file, pos, SpanObject(f));
  }

  /** Recovery stops at a record over the guard. */
  lemma {:induction false} GuardStops(file: Bytes, pos: nat, f: SpanFields)
    requires Storable(f) && !Guarded(f) && At(file, pos, SpanObject(f))
    ensures RecoverFrom(file, pos) == Recovered([], 0)
  {
    hide SpanObject, ExtractIdentity, ReadLe;
    SpanIsObject(f);
    ObjectWhole(file, pos, SpanObject(f));
  }

  lemma {:induction false} ObjectWhole(file: Bytes, pos: nat, obj: Bytes)
    requires IsObject(obj) && At(file, pos, obj)
    ensures pos + |obj| <= |file| && file[pos..pos + |obj|] == obj
    ensures ReadLe(file[pos..pos + 4]) == CompactRecord.MAGIC_OBJ && ReadLe(file[pos + 4..pos + 8]) == |obj|
  {
    AtSlice(file, pos, obj, 0, 4);
    AtSlice(file, pos, obj, 4, 8);
  }

  lemma {:induction false} TornStops(file: Bytes, pos: nat, obj: Bytes, cut: nat)
    requires IsObject(obj) && At(file, pos, obj) && cut <= |file| && cut < pos + |obj|
    ensures RecoverFrom(file[..cut], pos) == Recovered([], 0)
  {
    hide ExtractIdentity;
    ObjectWhole(file, pos, obj);
    if pos + 8 <= cut {
      assert file[..cut][pos..pos + 4] == file[pos..pos + 4] && file[..cut][pos + 4..pos + 8] == file[pos + 4..pos + 8];
    }
  }

  /** Recovering a log cut off anywhere finds the records kept whole, in order, up to one over the guard. */
  lemma {:induction false} RecoversWhole(file: Bytes, base: nat, spans: seq<SpanFields>, cut: nat, k: nat)
    requires AllStorable(spans) && k <= |spans|
    requires At(file, base, Join(SpanObjects(spans))) && cut <= base + |Join(SpanObjects(spans))|
    ensures var objects := SpanObjects(spans);
            var m := UpToGuard(spans, k, WholePages(base, objects, k, cut));
            RecoverFrom(file[..cut], base + |Join(objects[..k])|) == Recovered(Entries(spans, base, k, m), m - k)
    decreases |spans| - k
  {
    hide RecoverFrom, Join, SpanObject, IdentityOf, Guarded;
    var objects := SpanObjects(spans);
    if k < |spans| {
      var pos := base + |Join(objects[..k])|;
      JoinAt(file, base, objects, k);
      SpanIsObject(spans[k]);
      if base + |Join(objects[..k + 1])| <= cut {
        CutKeeps(file, pos, SpanObject(spans[k]), cut);
        if Guarded(spans[k]) {
          RecoverStep(file[..cut], pos, spans[k]);
          RecoversWhole(file, base, spans, cut, k + 1);
          EntriesStep(spans, base, k, UpToGuard(spans, k, WholePages(base, objects, k, cut)));
        } else {
          GuardStops(file[..cut], pos, spans[k]);
        }
      } else {
        TornStops(file, pos, SpanObject(spans[k]), cut);
      }
    } else {
      assert objects[..k] == objects;
      PastEnd(file[..cut], base + |Join(objects)|);
    }
  }

  lemma {:induction false} CutKeeps(file: Bytes, pos: nat, s: Bytes, cut: nat)
    requires At(file, pos, s) && pos + |s| <= cut <= |file|
    ensures At(file[..cut], pos, s)
  {
    assert file[..cut][pos..pos + |s|] == file[pos..pos + |s|];
  }

  lemma {:induction false} PastEnd(file: Bytes, pos: nat)
    requires |file| <= pos
    ensures RecoverFrom(file, pos) == Recovered([], 0)
  {
  }

  lemma {:induction false} HeaderRecovers(file: Bytes)
    requires WalHeader() <= file
    ensures RecoverFile(file) == Ok(RecoverFrom(file, DataStart()))
  {
    hide RecoverFrom, Le, WalSchema, ReadLe;
    Pow256Values();
    SchemaShort();
    var a, b, c, d := Le(MAGIC_WAL, 4), Le(0x0100, 2), Le(1, 2), Le(|WalSchema()|, 4);
    assert file[0..|WalHeader()|] == WalHeader();
    assert At(file, 0, a + b + c + d + WalSchema());
    AtConcat(file, 0, a + b + c + d, WalSchema());
    AtConcat(file, 0, a + b + c, d);
    AtConcat(file, 0, a + b, c);
    AtConcat(file, 0, a, b);
    AtLe(file, 0, MAGIC_WAL, 4);
    AtLe(file, 8, |WalSchema()|, 4);
  }

  lemma {:induction false} NamesLen(names: seq<Bytes>, bound: nat)
    requires forall k :: 0 <= k < |names| ==> |names[k]| <= bound
    ensures |Names(names)| <= |names| * (bound + 1)
  {
    if |names| > 0 { NamesLen(names[1..], bound); }
  }

  lemma {:induction false} SchemaShort()
    ensures |WalSchema()| < 256
  {
    KeysShort();
    hide SpanKeys;
    NamesLen(SpanKeys(), 14);
  }

  /** The number of records that a first recovery finds: those kept whole, up to one over the guard. */
  function Found(spans: seq<SpanFields>, cut: nat): (m: nat)
    ensures m <= |spans|
  {
    UpToGuard(spans, 0, WholePages(DataStart(), SpanObjects(spans), 0, cut))
  }

  /** Every record kept whole passes the guard. */
  ghost predicate KeptGuarded(spans: seq<SpanFields>, cut: nat)
  {
    forall j :: 0 <= j < WholePages(DataStart(), SpanObjects(spans), 0, cut) ==> Guarded(spans[j])
  }

  /**
   Crash recovery: after any appends, and a crash that keeps any prefix of the log from its header on,
   recovery rebuilds the entries of the records wholly inside the kept bytes, in order, up to the first one
   over the guard. So it agrees with the index in memory exactly when none of those records is over the guard.
   */
  lemma {:induction false} CrashRecovery(spans: seq<SpanFields>, cut: nat)
    requires AllStorable(spans) && DataStart() <= cut <= |Log(spans)|
    ensures RecoverFile(Log(spans)[..cut]) == Ok(Recovered(Entries(spans, DataStart(), 0, Found(spans, cut)), Found(spans, cut)))
    ensures Entries(spans, DataStart(), 0, Found(spans, cut)) <= Entries(spans, DataStart(), 0, |spans|)
    ensures Found(spans, cut) == WholePages(DataStart(), SpanObjects(spans), 0, cut) <==> KeptGuarded(spans, cut)
  {
    hide RecoverFrom, RecoverFile, WalHeader, Join, EntryAt, SpanObject, WholePages, Entries, Guarded, UpToGuard;
    var file, objects := Log(spans), SpanObjects(spans);
    assert At(file, DataStart(), Join(objects));
    assert WalHeader() <= file[..cut];
    HeaderRecovers(file[..cut]);
    NothingBefore(objects);
    GuardedUpTo(spans, 0, WholePages(DataStart(), objects, 0, cut));
    RecoversWhole(file, DataStart(), spans, cut, 0);
    EntriesPrefix(spans, DataStart(), Found(spans, cut));
  }

  lemma {:induction false} NothingBefore(objects: seq<Bytes>)
    ensures Join(objects[..0]) == []
  {
  }

  // ── Appending after a crash ───────────────────────────────────────────────

  /** The kept bytes end between two records. */
  predicate Untorn(spans: seq<SpanFields>, cut: nat)
  {
    cut == DataStart() + |Join(SpanObjects(spans)[..WholePages(DataStart(), SpanObjects(spans), 0, cut)])|
  }

  /** Recovery reads the whole records first, whatever follows them. */
  lemma {:induction false} RecoversPrefix(file: Bytes, base: nat, spans: seq<SpanFields>, n: nat, k: nat)
    requires k <= n <= |spans| && forall j :: 0 <= j < n ==> Guarded(spans[j])
    requires At(file, base, Join(SpanObjects(spans)[..n]))
    ensures var objects := SpanObjects(spans);
            RecoverFrom(file, base + |Join(objects[..k])|).index ==
            Entries(spans, base, k, n) + RecoverFrom(file, base + |Join(objects[..n])|).index
    decreases n - k
  {
    hide RecoverFrom, Join, SpanObject, IdentityOf;
    if k < n {
      var objects := SpanObjects(spans);
      JoinAt(file, base, objects[..n], k);
      assert objects[..n][..k] == objects[..k] && objects[..n][..k + 1] == objects[..k + 1];
      RecoverStep(file, base + |Join(objects[..k])|, spans[k]);
      RecoversPrefix(file, base, spans, n, k + 1);
      EntriesStep(spans, base, k, n);
    }
  }

  lemma {:induction false} WholePagesKept(base: nat, pages: seq<Bytes>, k: nat, cut: nat)
    requires k <= |pages| && base + |Join(pages[..k])| <= cut <= base + |Join(pages)|
    ensures var n := WholePages(base, pages, k, cut);
            base + |Join(pages[..n])| <= cut && (n < |pages| ==> cut < base + |Join(pages[..n + 1])|)
            && (n == |pages| ==> cut == base + |Join(pages[..n])|)
    decreases |pages| - k
  {
    hide Join;
    if k < |pages| {
      if base + |Join(pages[..k + 1])| <= cut { WholePagesKept(base, pages, k + 1, cut); }
    } else {
      assert pages[..k] == pages;
    }
  }

  /** From `pos` to `cut` the file holds the first bytes of an object, and not all of them. */
  ghost predicate TornAt(file: Bytes, pos: nat, obj: Bytes, cut: nat)
  {
    pos <= cut < pos + |obj| && cut <= |file| && forall i :: pos <= i < cut ==> file[i] == obj[i - pos]
  }

  /** Past a torn record, no record that recovery finds can start where the log was cut. */
  lemma {:induction false} TornHides(file: Bytes, pos: nat, obj: Bytes, cut: nat)
    requires IsObject(obj) && pos < cut && TornAt(file, pos, obj, cut)
    ensures forall k :: 0 <= k < |RecoverFrom(file, pos).index| ==> RecoverFrom(file, pos).index[k].offset != cut
  {
    hide ExtractIdentity;
    if pos + 8 <= |file| {
      var len := ReadLe(file[pos + 4..pos + 8]);
      if pos + 8 <= cut {
        assert file[pos + 4..pos + 8] == obj[4..8];
      }
      assert len >= 8 ==> pos + len > cut;
    }
  }

  /** The log after a crash, recovery and further appends. */
  function Continued(spans: seq<SpanFields>, cut: nat, more: seq<SpanFields>): Bytes
    requires cut <= |Log(spans)|
  {
    Log(spans)[..cut] + Join(SpanObjects(more))
  }

  /** The index in memory then: what was recovered, and the new records at the end of the file. */
  function ContinuedIndex(spans: seq<SpanFields>, cut: nat, more: seq<SpanFields>): seq<WalEntry>
  {
    Entries(spans, DataStart(), 0, Found(spans, cut)) + Entries(more, cut, 0, |more|)
  }

  /** A second recovery ends without an error, and not with the index kept in memory. */
  ghost predicate Forgets(spans: seq<SpanFields>, cut: nat, more: seq<SpanFields>)
  {
    cut <= |Log(spans)| &&
    var file := Continued(spans, cut, more);
    RecoverFile(file).Ok? && RecoverFile(file).value.index != ContinuedIndex(spans, cut, more)
  }

  /**
   A second recovery agrees with the index kept in memory exactly when the first crash left no torn record and
   no record, old or new, is over the guard: recovery takes the end of the file, not the end of the last
   record it read, as the place to append.
   */
  lemma {:induction false} SecondRecovery(spans: seq<SpanFields>, cut: nat, more: seq<SpanFields>)
    requires AllStorable(spans) && AllStorable(more) && |more| > 0
    requires DataStart() <= cut <= |Log(spans)|
    ensures RecoverFile(Continued(spans, cut, more)).Ok?
    ensures RecoverFile(Continued(spans, cut, more)).value.index == ContinuedIndex(spans, cut, more)
            <==> Untorn(spans, cut) && KeptGuarded(spans, cut) && forall j :: 0 <= j < |more| ==> Guarded(more[j])
  {
    hide RecoverFrom, RecoverFile, WalHeader, Join, EntryAt, SpanObject, Entries, WholePages, Guarded, UpToGuard;
    var file, objects := Continued(spans, cut, more), SpanObjects(spans);
    var base, n, m := DataStart(), WholePages(DataStart(), SpanObjects(spans), 0, cut), Found(spans, cut);
    NothingBefore(objects);
    WholePagesKept(base, objects, 0, cut);
    GuardedUpTo(spans, 0, n);
    GuardedUpTo(more, 0, |more|);
    assert WalHeader() <= file;
    HeaderRecovers(file);
    KeptBefore(spans, cut, m);
    PrefixKept(spans, cut, more, m);
    RecoversPrefix(file, base, spans, m, 0);
    FirstNew(spans, cut, more);
    if m < n {
      StopsAgain(spans, cut, more);
    } else if cut == base + |Join(objects[..n])| {
      RecoversMore(spans, cut, more);
      EntriesLen(more, cut);
    } else {
      JoinNext(objects, n);
      TornBytes(spans, cut, more, n, base + |Join(objects[..n])|);
      SpanIsObject(spans[n]);
      TornHides(file, base + |Join(objects[..n])|, objects[n], cut);
    }
  }

  lemma {:induction false} KeptBefore(spans: seq<SpanFields>, cut: nat, k: nat)
    requires DataStart() <= cut <= |Log(spans)| && k <= WholePages(DataStart(), SpanObjects(spans), 0, cut)
    ensures DataStart() + |Join(SpanObjects(spans)[..k])| <= cut
  {
    hide Join, WalHeader, WholePages, SpanObject;
    NothingBefore(SpanObjects(spans));
    WholePagesKept(DataStart(), SpanObjects(spans), 0, cut);
    JoinMono(SpanObjects(spans), k, WholePages(DataStart(), SpanObjects(spans), 0, cut));
  }

  /** A kept record over the guard stops the second recovery as it stopped the first. */
  lemma {:induction false} StopsAgain(spans: seq<SpanFields>, cut: nat, more: seq<SpanFields>)
    requires AllStorable(spans) && DataStart() <= cut <= |Log(spans)|
    requires Found(spans, cut) < WholePages(DataStart(), SpanObjects(spans), 0, cut)
    ensures RecoverFrom(Continued(spans, cut, more), DataStart() + |Join(SpanObjects(spans)[..Found(spans, cut)])|) == Recovered([], 0)
  {
    hide Join, WalHeader, WholePages, SpanObject, RecoverFrom, Guarded, UpToGuard;
    var m, objects := Found(spans, cut), SpanObjects(spans);
    KeptBefore(spans, cut, m + 1);
    GuardedUpTo(spans, 0, WholePages(DataStart(), objects, 0, cut));
    PrefixKept(spans, cut, more, m + 1);
    JoinAt(Continued(spans, cut, more), DataStart(), objects[..m + 1], m);
    assert objects[..m + 1][..m] == objects[..m];
    GuardStops(Continued(spans, cut, more), DataStart() + |Join(objects[..m])|, spans[m]);
  }

  lemma {:induction false} EntriesLen(spans: seq<SpanFields>, base: nat)
    ensures forall m: nat :: m <= |spans| ==> (Entries(spans, base, 0, m) == Entries(spans, base, 0, |spans|) <==> m == |spans|)
  {
    hide EntryAt;
  }

  /** From a clean end, recovery goes on through the new records, up to one over the guard. */
  lemma {:induction false} RecoversMore(spans: seq<SpanFields>, cut: nat, more: seq<SpanFields>)
    requires AllStorable(more) && cut <= |Log(spans)|
    ensures RecoverFrom(Continued(spans, cut, more), cut).index == Entries(more, cut, 0, UpToGuard(more, 0, |more|))
  {
    hide RecoverFrom, WalHeader, Join, EntryAt, SpanObject, Entries, WholePages, Guarded, UpToGuard;
    var file := Continued(spans, cut, more);
    assert At(file, cut, Join(SpanObjects(more)));
    NothingBefore(SpanObjects(more));
    RecoversWhole(file, cut, more, |file|, 0);
    AllWhole(cut, SpanObjects(more), 0);
    assert file[..|file|] == file;
  }

  lemma {:induction false} PrefixKept(spans: seq<SpanFields>, cut: nat, more: seq<SpanFields>, n: nat)
    requires n <= |spans| && DataStart() <= cut <= |Log(spans)| && DataStart() + |Join(SpanObjects(spans)[..n])| <= cut
    ensures At(Continued(spans, cut, more), DataStart(), Join(SpanObjects(spans)[..n]))
  {
    hide WalHeader, Join, SpanObject, At;
    var objects := SpanObjects(spans);
    assert objects == objects[..n] + objects[n..];
    JoinSum(objects[..n], objects[n..]);
    KeptAt(WalHeader(), Join(objects[..n]), Join(objects[n..]), cut, Join(SpanObjects(more)));
  }

  lemma {:induction false} KeptAt(header: Bytes, a: Bytes, b: Bytes, cut: nat, more: Bytes)
    requires |header| + |a| <= cut <= |header + (a + b)|
    ensures At((header + (a + b))[..cut] + more, |header|, a)
  {
    assert ((header + (a + b))[..cut] + more)[|header|..|header| + |a|] == a;
  }

  lemma {:induction false} TornBytes(spans: seq<SpanFields>, cut: nat, more: seq<SpanFields>, n: nat, end: nat)
    requires n < |spans| && end == DataStart() + |Join(SpanObjects(spans)[..n])|
    requires end <= cut < end + |SpanObjects(spans)[n]| && cut <= |Log(spans)|
    ensures TornAt(Continued(spans, cut, more), end, SpanObjects(spans)[n], cut)
  {
    hide WalHeader, Join, SpanObject;
    var objects := SpanObjects(spans);
    assert At(Log(spans), DataStart(), Join(objects));
    JoinAt(Log(spans), DataStart(), objects, n);
    forall i | end <= i < cut
      ensures Continued(spans, cut, more)[i] == objects[n][i - end]
    {
      AtIndex(Log(spans), end, objects[n], i - end);
    }
  }

  lemma {:induction false} FirstNew(spans: seq<SpanFields>, cut: nat, more: seq<SpanFields>)
    requires |more| > 0
    ensures |ContinuedIndex(spans, cut, more)| > Found(spans, cut) && ContinuedIndex(spans, cut, more)[Found(spans, cut)].offset == cut
  {
    hide WalHeader, IdentityOf, Found;
    NothingBefore(SpanObjects(more));
  }

  lemma {:induction false} AllWhole(base: nat, pages: seq<Bytes>, k: nat)
    requires k <= |pages|
    ensures WholePages(base, pages, k, base + |Join(pages)|) == |pages|
    decreases |pages| - k
  {
    hide Join;
    if k < |pages| {
      JoinMono(pages, k + 1, |pages|);
      assert pages[..|pages|] == pages;
      AllWhole(base, pages, k + 1);
    }
  }

  // ── The data sector of a one-record file ──────────────────────────────────

  function SkipNames(data: Bytes, p: nat, n: nat): nat
    decreases n
  {
    if n == 0 then p else SkipNames(data, (if p <= |data| then NulAt(data, p) else p) + 1, n - 1)
  }

  /** `extract_data_sector` */
  function DataSector(nxb: Bytes): Result<Bytes>
  {
    if |nxb| < 32 then Err(OutOfBounds)
    else
      var preambleTail := ReadLe(nxb[16..24]);
      if preambleTail == 0 && |nxb| < 44 then Err(OutOfBounds)
      else
        var tailPtr := if preambleTail == 0 then ReadLe(nxb[|nxb| - 12..|nxb| - 4]) else preambleTail;
        if tailPtr > |nxb| || 34 > |nxb| then Err(OutOfBounds)
        else
          var n := ReadLe(nxb[32..34]);
          var start := RoundUp(SkipNames(nxb, 34 + n, n), 8);
          if start > tailPtr then Err(OutOfBounds) else Ok(nxb[start..tailPtr])
  }

  method ExtractDataSector(nxb: Bytes) returns (r: Result<Bytes>)
    ensures r == DataSector(nxb)
  {
    hide ReadLe, NulAt, RoundUp;
    if |nxb| < 32 { return Err(OutOfBounds); }
    var tailPtr := ReadLe(nxb[16..24]);
    if tailPtr == 0 {
      if |nxb| < 44 { return Err(OutOfBounds); }
      tailPtr := ReadLe(nxb[|nxb| - 12..|nxb| - 4]);
    }
    if tailPtr > |nxb| { return Err(OutOfBounds); }
    if 34 > |nxb| { return Err(OutOfBounds); }
    var keyCount := ReadLe(nxb[32..34]);
    var pos := 34 + keyCount;
    ghost var start := pos;
    for k := 0 to keyCount
      invariant 0 <= pos && SkipNames(nxb, start, keyCount) == SkipNames(nxb, pos, keyCount - k)
    {
      ghost var from := pos;
      while pos < |nxb| && nxb[pos] != 0
        invariant from <= pos && (from <= |nxb| ==> pos <= |nxb| && NulAt(nxb, from) == NulAt(nxb, pos))
        invariant from > |nxb| ==> pos == from
        decreases |nxb| - pos
      {
        pos := pos + 1;
      }
      pos := pos + 1;
    }
    var first := AlignLoop(pos);
    if first > tailPtr { return Err(OutOfBounds); }
    r := Ok(nxb[first..tailPtr]);
  }

  /** `while pos % 8 != 0 { pos += 1 }` */
  method AlignLoop(p: nat) returns (q: nat)
    ensures q == RoundUp(p, 8)
  {
    q := p;
    while q % 8 != 0
      invariant p <= q <= RoundUp(p, 8)
      decreases RoundUp(p, 8) - q
    {
      q := q + 1;
    }
    RoundUpLeast(p, 8, q);
  }

  lemma {:induction false} SkipsNames(data: Bytes, p: nat, n: nat)
    requires ParseNames(data, p, n).Ok?
    ensures SkipNames(data, p, n) == ParseNames(data, p, n).value.next
    decreases n
  {
    if n > 0 { SkipsNames(data, NulAt(data, p) + 1, n - 1); }
  }

  /** The data sector of a v1.2 file is its objects, one after another. */
  lemma {:induction false} SectorOfPlain(keys: seq<Bytes>, sigils: Bytes, rows: seq<seq<Write>>, hash: Hash)
    requires |keys| < U16 && NulFree(keys) && |PlainFile(keys, sigils, rows, hash)| < U64
    ensures DataSector(PlainFile(keys, sigils, rows, hash)) == Ok(Join(Objects(rows, |keys|)))
  {
    hide *;
    var header, data := BasicHeader(keys, sigils), Join(Objects(rows, |keys|));
    var index := ClassicIndex(RecordOffsets(Objects(rows, |keys|), 32 + |header|));
    var file := PlainFile(keys, sigils, rows, hash);
    PlainFileIs(keys, sigils, rows, hash);
    TailAfter(header, data);
    IndexLen(RecordOffsets(Objects(rows, |keys|), 32 + |header|));
    RowFileOpens(VERSION, PlainFlags(), header, data, index, hash);
    FileParts(VERSION, PlainFlags(), header, data, index, hash);
    HeaderSkips(file, keys, sigils);
    WholeSlice(file, 32 + |header|, data);
    SectorIs(file, 32 + |header|, TailPtr(header, data));
  }

  lemma {:induction false} TailAfter(header: Bytes, data: Bytes)
    ensures TailPtr(header, data) == 32 + |header| + |data|
  {
  }

  lemma {:induction false} WholeSlice(data: Bytes, off: nat, s: Bytes)
    requires At(data, off, s)
    ensures off + |s| <= |data| && data[off..off + |s|] == s
  {
  }

  lemma {:induction false} SectorIs(nxb: Bytes, start: nat, tailPtr: nat)
    requires |nxb| >= 48 && ReadLe(nxb[16..24]) == 0 && ReadLe(nxb[|nxb| - 12..|nxb| - 4]) == tailPtr
    requires start <= tailPtr <= |nxb| && RoundUp(SkipNames(nxb, 34 + ReadLe(nxb[32..34]), ReadLe(nxb[32..34])), 8) == start
    ensures DataSector(nxb) == Ok(nxb[start..tailPtr])
  {
    hide ReadLe, SkipNames;
  }

  lemma {:induction false} HeaderSkips(file: Bytes, keys: seq<Bytes>, sigils: Bytes)
    requires At(file, 32, BasicHeader(keys, sigils)) && |keys| < U16 && NulFree(keys)
    ensures |file| >= 34 && RoundUp(SkipNames(file, 34 + ReadLe(file[32..34]), ReadLe(file[32..34])), 8) == 32 + |BasicHeader(keys, sigils)|
  {
    hide NulFree, KnownSigils, Names, SkipNames, ParseNames;
    var head := SchemaHeader.Head(keys, KnownSigils(|keys|, sigils));
    AtConcat(file, 32, head, Zeros(RoundUp(|head|, 8) - |head|));
    AtConcat(file, 32, Le(|keys|, 2) + KnownSigils(|keys|, sigils), Names(keys));
    AtConcat(file, 32, Le(|keys|, 2), KnownSigils(|keys|, sigils));
    Pow256Values();
    AtLe(file, 32, |keys|, 2);
    NamesRoundTrip(file, 34 + |keys|, keys);
    SkipsNames(file, 34 + |keys|, |keys|);
    RoundUpShift(32, |head|);
  }
}
