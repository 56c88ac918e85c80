/**
 The life of a log, through its operations: it is created, spans are appended, it is queried, it crashes and
 is recovered, it is sealed, and the segment is loaded and queried.
 */
module LogLife {
  import opened Bytes
  import opened Preamble
  import opened RowFile
  import opened Span
  import opened SpanCodec
  import opened WalRecovery
  import opened SpanLog
  import opened Segment
  import opened TraceQueries
  import opened ForwardReaders

  /** The log holds exactly these spans: in the file, in the index, in the counters. */
  ghost predicate Holds(wal: SpanWal, spans: seq<SpanFields>)
    reads wal
  {
    wal.file == Log(spans) && wal.index == FullIndex(spans) && wal.recordCount == |spans| && wal.currentOffset == |wal.file|
  }

  lemma {:induction false} LogGrows(spans: seq<SpanFields>, f: SpanFields)
    ensures Log(spans + [f]) == Log(spans) + SpanObject(f)
    ensures FullIndex(spans + [f]) == FullIndex(spans) + [IndexEntry(f, |Log(spans)|)]
  {
    hide WalHeader, Join, SpanObject, IdentityOf;
    var more := spans + [f];
    assert SpanObjects(more) == SpanObjects(spans) + [SpanObject(f)];
    JoinSnoc(SpanObjects(spans), SpanObject(f));
    assert (WalHeader() + Join(SpanObjects(spans))) + SpanObject(f) == WalHeader() + (Join(SpanObjects(spans)) + SpanObject(f));
    forall k | 0 <= k < |spans|
      ensures EntryAt(more, DataStart(), k) == EntryAt(spans, DataStart(), k)
    {
      assert SpanObjects(more)[..k] == SpanObjects(spans)[..k];
    }
    assert SpanObjects(more)[..|spans|] == SpanObjects(spans);
  }

  /** Appending spans one by one: after each, the log holds the spans so far and the new one. */
  method AppendAll(wal: SpanWal, spans: seq<SpanFields>, ghost before: seq<SpanFields>)
    requires Holds(wal, before) && AllStorable(spans)
    modifies wal
    ensures Holds(wal, before + spans)
  {
    hide Log, FullIndex, SpanObject, IndexEntry, SegmentFile;
    assert before + spans[..0] == before;
    for k := 0 to |spans|
      invariant Holds(wal, before + spans[..k])
    {
      assert (before + spans[..k]) + [spans[k]] == before + spans[..k + 1];
      LogGrows(before + spans[..k], spans[k]);
      OneRecordFits(spans[k], wal.hash);
      var at := wal.Append(spans[k]);
    }
    assert spans[..|spans|] == spans;
  }

  /**
   A crash keeps some prefix of the file, from the header on; the reopened log recovers a prefix of the
   index, the records that were kept whole up to one over the guard, and appends at the end of the file. If
   nothing was torn and nothing is over the guard, it is the log of the spans that were kept.
   */
  method CrashAndRecover(wal: SpanWal, cut: nat, hash: Hash, ghost spans: seq<SpanFields>) returns (again: SpanWal)
    requires Holds(wal, spans) && AllStorable(spans)
    requires DataStart() <= cut <= |wal.file|
    ensures fresh(again) && again.file == wal.file[..cut] && again.currentOffset == cut
    ensures again.recordCount == Found(spans, cut) && again.index == wal.index[..Found(spans, cut)]
    ensures Untorn(spans, cut) && KeptGuarded(spans, cut) ==> Holds(again, spans[..Found(spans, cut)])
  {
    hide Log, RecoverFile, WholePages, AllStorable, KeptGuarded, EntryAt, SpanObject, Join, Found, Entries, WalHeader,
         Untorn;
    CrashRecovery(spans, cut);
    again := new SpanWal.Reopen(wal.file[..cut], hash);
    var error := again.Recover();
    assert again.index == FullIndex(spans)[..Found(spans, cut)];
    if Untorn(spans, cut) && KeptGuarded(spans, cut) {
      UntornEnd(spans, cut);
      KeptLog(spans, cut, Found(spans, cut));
    }
  }

  lemma {:induction false} UntornEnd(spans: seq<SpanFields>, cut: nat)
    requires Untorn(spans, cut) && Found(spans, cut) == WholePages(DataStart(), SpanObjects(spans), 0, cut)
    ensures cut == DataStart() + |Join(SpanObjects(spans)[..Found(spans, cut)])|
  {
    hide WalHeader, Found, WholePages;
  }

  lemma {:induction false} KeptLog(spans: seq<SpanFields>, cut: nat, n: nat)
    requires n <= |spans| && cut <= |Log(spans)| && cut == DataStart() + |Join(SpanObjects(spans)[..n])|
    ensures Log(spans)[..cut] == Log(spans[..n]) && FullIndex(spans[..n]) == FullIndex(spans)[..n]
  {
    hide WalHeader, Join, SpanObject, IdentityOf;
    assert SpanObjects(spans[..n]) == SpanObjects(spans)[..n];
    JoinSum(SpanObjects(spans)[..n], SpanObjects(spans)[n..]);
    assert SpanObjects(spans)[..n] + SpanObjects(spans)[n..] == SpanObjects(spans);
    forall k | 0 <= k < n
      ensures EntryAt(spans[..n], DataStart(), k) == EntryAt(spans, DataStart(), k)
    {
      assert SpanObjects(spans[..n])[..k] == SpanObjects(spans)[..k];
    }
  }

  /** A new log, filled with spans. */
  method Filled(spans: seq<SpanFields>, hash: Hash) returns (wal: SpanWal)
    requires Sound(spans)
    ensures fresh(wal) && wal.hash == hash && Holds(wal, spans)
  {
    hide Log, FullIndex, Sound;
    wal := new SpanWal.Create(hash);
    StartsEmpty();
    SoundIsStorable(spans);
    AppendAll(wal, spans, []);
    assert [] + spans == spans;
  }

  /**
   The whole way round: a query over the live log after the appends, and the same query over the segment
   that sealing it gives, both return exactly the appended spans of the trace, in the stable order of
   their start times.
   */
  method AppendSealQuery(spans: seq<SpanFields>, trace: nat, hash: Hash) returns (live: seq<SpanView>,
      sealed: seq<SpanView>)
    requires Sound(spans) && StartsBelow(SpanObjects(spans)) && |SegmentFile(Norms(spans), hash)| < U64
    ensures live == sealed == SortByStart(TraceSpans(Norms(spans), trace))
  {
    hide Log, FullIndex, SpanObject, SegmentFile, Sound, Norms, TraceSpans, SortByStart, LiveSpans, SegmentSpans,
         Loaded, StartsBelow, SpanObjects;
    StartsEmpty();
    var wal := Filled(spans, hash);
    live := FindByTrace([], wal.file, wal.index, trace);
    var segment := SealAndLoad(wal, spans);
    var next := new SpanWal.Create(hash);
    sealed := FindByTrace([segment], next.file, next.index, trace);
    SealingKeepsAnswers(spans, trace, hash, segment);
  }

  /** Sealing a log of sound spans succeeds, and its segment loads. */
  method SealAndLoad(wal: SpanWal, ghost spans: seq<SpanFields>) returns (segment: SealedSegment)
    requires Holds(wal, spans) && Sound(spans) && StartsBelow(SpanObjects(spans)) && |SegmentFile(Norms(spans), wal.hash)| < U64
    ensures Loaded(segment, SegmentFile(Norms(spans), wal.hash), wal.hash)
  {
    hide Log, FullIndex, SpanObject, SegmentFile, StoredSegment, Sound, Norms, AllSealed, Join, Loaded, DecodeFile,
         DataSector, SpanRows, StartsBelow;
    SealPreserves(spans, wal.hash);
    SealedStarts(spans);
    StoredIsSegment(Norms(spans), wal.hash);
    var report := wal.Seal();
    SealedOpens(spans, wal.hash);
    var loaded := Load(report.value.segment, wal.hash);
    segment := loaded.value;
  }

  lemma {:induction false} SealedStarts(spans: seq<SpanFields>)
    ensures SpanObjects(Norms(spans)) == SpanObjects(spans)
  {
    hide SpanObject, Norm;
    forall k | 0 <= k < |spans|
      ensures SpanObject(Norm(spans[k])) == SpanObject(spans[k])
    {
      NormSameObject(spans[k]);
    }
  }

  /**
   Log after log is filled, sealed and loaded, and then one more is filled and left live: a query over them all
   returns exactly the spans of the trace among all that were appended, in the stable order of their start
   times.
   */
  method RotateAndQuery(logs: seq<seq<SpanFields>>, last: seq<SpanFields>, trace: nat, hash: Hash)
      returns (found: seq<SpanView>)
    requires forall k :: 0 <= k < |logs| ==> SealedWell(logs[k], hash) && StartsBelow(SpanObjects(logs[k]))
    requires Sound(last)
    ensures found == SortByStart(TraceSpans(Norms(Together(logs) + last), trace))
  {
    hide Log, FullIndex, SpanObject, SegmentFile, Sound, Norms, TraceSpans, SortByStart, LiveSpans, SegmentSpans,
         Loaded, StartsBelow, SpanObjects, Together;
    var segments: seq<SealedSegment> := [];
    for k := 0 to |logs|
      invariant LoadedFrom(segments, logs[..k], hash)
    {
      var wal := Filled(logs[k], hash);
      var segment := SealAndLoad(wal, logs[k]);
      segments := segments + [segment];
    }
    assert logs[..|logs|] == logs;
    var live := Filled(last, hash);
    found := FindByTrace(segments, live.file, live.index, trace);
    QueryAnswers(logs, segments, last, trace, hash);
  }

  lemma {:induction false} SoundIsStorable(spans: seq<SpanFields>)
    requires Sound(spans)
    ensures AllStorable(spans)
  {
    hide Storable, SpanFits, CleanSpan;
  }

  lemma {:induction false} StartsEmpty()
    ensures FullIndex([]) == []
  {
  }
}
