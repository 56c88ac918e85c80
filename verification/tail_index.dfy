/**
 The two tail indexes of a row file: ten-byte entries, and block anchors with four-byte deltas. Both give
 back the offset of every record.
 */
module TailIndex {
  import opened Bytes
  import opened Align

  const MAGIC_FOOTER: nat := 0x2153_584E

  function Footer(tailPtr: nat): (b: Bytes)
    ensures |b| == 12
  {
    Le(tailPtr, 8) + Le(MAGIC_FOOTER, 4)
  }

  // ── The classic index ─────────────────────────────────────────────────────

  function ClassicEntries(offs: seq<nat>, k: nat): (b: Bytes)
    requires k <= |offs|
    ensures |b| == 10 * (|offs| - k)
    decreases |offs| - k
  {
    if k == |offs| then [] else Le(k, 2) + Le(offs[k], 8) + ClassicEntries(offs, k + 1)
  }

  function ClassicTail(offs: seq<nat>, tailPtr: nat): Bytes
  {
    Le(|offs|, 4) + ClassicEntries(offs, 0) + Footer(tailPtr)
  }

  /** `build_tail_index_records` */
  method BuildTailIndexRecords(offs: seq<nat>, tailPtr: nat) returns (b: Bytes)
    ensures b == ClassicTail(offs, tailPtr)
  {
    hide Le;
    b := Le(|offs|, 4);
    for i := 0 to |offs|
      invariant b + ClassicEntries(offs, i) == Le(|offs|, 4) + ClassicEntries(offs, 0)
    {
      assert b + ClassicEntries(offs, i) == (b + Le(i, 2) + Le(offs[i], 8)) + ClassicEntries(offs, i + 1);
      b := b + Le(i, 2) + Le(offs[i], 8);
    }
    b := b + Le(tailPtr, 8) + Le(MAGIC_FOOTER, 4);
  }

  /** `classic_record_offset`, with `tailStart` the first byte after the entry count. */
  function ClassicOffset(data: Bytes, tailStart: nat, index: nat): Option<nat>
  {
    ReadU(data, tailStart + index * 10 + 2, 8)
  }

  lemma {:induction false} ClassicReads(data: Bytes, off: nat, offs: seq<nat>, k: nat, i: nat)
    requires k <= i < |offs| && At(data, off, ClassicEntries(offs, k)) && offs[i] < U64
    ensures ClassicOffset(data, off, i - k) == Some(offs[i])
    decreases i - k
  {
    var entry := Le(k, 2) + Le(offs[k], 8);
    AtConcat(data, off, entry, ClassicEntries(offs, k + 1));
    if i == k {
      AtConcat(data, off, Le(k, 2), Le(offs[k], 8));
      Pow256Values();
      AtLe(data, off + 2, offs[k], 8);
    } else {
      ClassicReads(data, off + 10, offs, k + 1, i);
    }
  }

  // ── The delta index ───────────────────────────────────────────────────────

  /** `block_size.max(1)` */
  function Block(blockSize: nat): (a: nat)
    ensures a >= 1
  {
    if blockSize == 0 then 1 else blockSize
  }

  function AnchorCount(n: nat, a: nat): nat
    requires a >= 1
  {
    if n == 0 then 0 else (n + a - 1) / a
  }

  function Anchors(offs: seq<nat>, a: nat): (anchors: seq<nat>)
    requires a >= 1
    ensures |anchors| == AnchorCount(|offs|, a)
  {
    seq(AnchorCount(|offs|, a), j requires 0 <= j => if j * a < |offs| then offs[j * a] else 0)
  }

  /** The delta of record `k`, or the failure its subtraction gives. */
  function Delta(offs: seq<nat>, anchors: seq<nat>, a: nat, k: nat): Result<nat>
    requires a >= 1 && k < |offs|
  {
    if k / a >= |anchors| then Err(Panic)
    else if offs[k] < anchors[k / a] then Err(OutOfBounds)
    else if offs[k] - anchors[k / a] > 0xFFFF_FFFF then Err(Overflow)
    else Ok(offs[k] - anchors[k / a])
  }

  /** The deltas from record `k` on, or the first failure. */
  function Deltas(offs: seq<nat>, anchors: seq<nat>, a: nat, k: nat): (r: Result<seq<nat>>)
    requires a >= 1 && k <= |offs|
    ensures r.Ok? ==> |r.value| == |offs| - k
    decreases |offs| - k
  {
    if k == |offs| then Ok([])
    else
      var delta :- Delta(offs, anchors, a, k);
      var rest :- Deltas(offs, anchors, a, k + 1);
      Ok([delta] + rest)
  }

  /** `build_delta_tail_index`, which always marks the index single-keyed. */
  function DeltaTail(offs: seq<nat>, tailPtr: nat, blockSize: nat): Result<Bytes>
  {
    var anchors := Anchors(offs, Block(blockSize));
    var deltas :- Deltas(offs, anchors, Block(blockSize), 0);
    Ok(DeltaHeader(|offs|, blockSize, |anchors|) + Fields(anchors, 8) + Fields(deltas, 4) + Footer(tailPtr))
  }

  function DeltaHeader(n: nat, blockSize: nat, anchorCount: nat): (b: Bytes)
    ensures |b| == 16
  {
    RoundUpUnique(12, 8, 16);
    PadTo(Le(n, 4) + Le(blockSize, 4) + Le(1, 2) + Le(anchorCount, 2), 8)
  }

  method BuildDeltaTailIndex(offs: seq<nat>, tailPtr: nat, blockSize: nat) returns (r: Result<Bytes>)
    ensures r == DeltaTail(offs, tailPtr, blockSize)
  {
    hide Fields, Deltas, Delta, Le, AnchorCount, RoundUp, PadTo;
    var n, a := |offs|, Block(blockSize);
    var anchorCount := AnchorCount(n, a);
    var anchors: seq<nat> := [];
    for j := 0 to anchorCount
      invariant anchors == Anchors(offs, a)[..j]
    {
      anchors := anchors + [if j * a < n then offs[j * a] else 0];
    }
    assert anchors == Anchors(offs, a);
    var deltas := CollectDeltas(offs, anchors, a);
    if deltas.Err? { return Err(deltas.error); }
    var b := PadLoop(Le(n, 4) + Le(blockSize, 4) + Le(1, 2) + Le(anchorCount, 2), 8);
    b := AppendFields(b, anchors, 8);
    b := AppendFields(b, deltas.value, 4);
    assert b + Le(tailPtr, 8) + Le(MAGIC_FOOTER, 4) == b + Footer(tailPtr);
    r := Ok(b + Le(tailPtr, 8) + Le(MAGIC_FOOTER, 4));
  }

  method CollectDeltas(offs: seq<nat>, anchors: seq<nat>, a: nat) returns (r: Result<seq<nat>>)
    requires a >= 1 && |anchors| == AnchorCount(|offs|, a)
    ensures r == Deltas(offs, anchors, a, 0)
  {
    hide AnchorCount;
    var deltas: seq<nat> := [];
    ResumedEnds(Deltas(offs, anchors, a, 0), deltas);
    for k := 0 to |offs|
      invariant Deltas(offs, anchors, a, 0) == Resumed(deltas, Deltas(offs, anchors, a, k))
    {
      AnchorInRange(|offs|, a, k);
      if offs[k] < anchors[k / a] { return Err(OutOfBounds); }
      var delta := offs[k] - anchors[k / a];
      if delta > 0xFFFF_FFFF { return Err(Overflow); }
      assert Delta(offs, anchors, a, k) == Ok(delta);
      ghost var rest := Deltas(offs, anchors, a, k + 1);
      assert rest.Ok? ==> (deltas + [delta]) + rest.value == deltas + ([delta] + rest.value);
      deltas := deltas + [delta];
    }
    ResumedEnds(Ok(deltas), deltas);
    r := Ok(deltas);
  }

  ghost function Resumed(deltas: seq<nat>, rest: Result<seq<nat>>): Result<seq<nat>>
  {
    if rest.Ok? then Ok(deltas + rest.value) else rest
  }

  lemma {:induction false} ResumedEnds(all: Result<seq<nat>>, deltas: seq<nat>)
    ensures Resumed([], all) == all && Resumed(deltas, Ok([])) == Ok(deltas)
  {
    assert deltas + [] == deltas;
    assert all.Ok? ==> [] + all.value == all.value;
  }

  lemma {:induction false} AnchorInRange(n: nat, a: nat, k: nat)
    requires a >= 1 && k < n
    ensures k / a < AnchorCount(n, a)
  {
    var q := k / a;
    assert k == a * q + k % a;
    var c := (n + a - 1) / a;
    assert n + a - 1 == a * c + (n + a - 1) % a;
    MulMono(a, c, q);
  }

  /** The first record of the block of record `k`. */
  function BlockStart(a: nat, k: nat): (s: nat)
    requires a >= 1
    ensures s <= k
  {
    assert k == a * (k / a) + k % a;
    k / a * a
  }

  /** The offset is at or above the first offset of its block, by at most `u32::MAX`. */
  predicate NearAnchor(offs: seq<nat>, a: nat, k: nat)
    requires a >= 1 && k < |offs|
  {
    0 <= offs[k] - offs[BlockStart(a, k)] < U32
  }

  lemma {:induction false} AnchorIs(offs: seq<nat>, a: nat, k: nat)
    requires a >= 1 && k < |offs|
    ensures k / a < |Anchors(offs, a)| && Anchors(offs, a)[k / a] == offs[BlockStart(a, k)]
  {
    AnchorInRange(|offs|, a, k);
    assert k / a * a == BlockStart(a, k);
  }

  lemma {:induction false} DeltaStep(offs: seq<nat>, a: nat, k: nat)
    requires a >= 1 && k < |offs|
    ensures Delta(offs, Anchors(offs, a), a, k).Ok? <==> NearAnchor(offs, a, k)
    ensures NearAnchor(offs, a, k) ==> Delta(offs, Anchors(offs, a), a, k).value == offs[k] - offs[BlockStart(a, k)]
  {
    AnchorIs(offs, a, k);
  }

  lemma {:induction false} DeltasSucceed(offs: seq<nat>, a: nat, k: nat)
    requires a >= 1 && k <= |offs|
    ensures Deltas(offs, Anchors(offs, a), a, k).Ok? <==> forall i :: k <= i < |offs| ==> NearAnchor(offs, a, i)
    decreases |offs| - k
  {
    hide Delta, NearAnchor, Anchors;
    if k < |offs| {
      DeltaStep(offs, a, k);
      DeltasSucceed(offs, a, k + 1);
    }
  }

  lemma {:induction false} DeltaIs(offs: seq<nat>, a: nat, k: nat, i: nat)
    requires a >= 1 && k <= i < |offs| && Deltas(offs, Anchors(offs, a), a, k).Ok?
    ensures NearAnchor(offs, a, i)
    ensures Deltas(offs, Anchors(offs, a), a, k).value[i - k] == offs[i] - offs[BlockStart(a, i)]
    decreases i - k
  {
    hide BlockStart, Delta, NearAnchor, Anchors;
    DeltaStep(offs, a, k);
    if i > k { DeltaIs(offs, a, k + 1, i); }
  }

  /** The builder succeeds exactly when every offset is near the anchor of its block. */
  lemma {:induction false} DeltaTailBuilds(offs: seq<nat>, tailPtr: nat, blockSize: nat)
    ensures DeltaTail(offs, tailPtr, blockSize).Ok? <==>
              forall k :: 0 <= k < |offs| ==> NearAnchor(offs, Block(blockSize), k)
  {
    DeltasSucceed(offs, Block(blockSize), 0);
  }

  /** `DeltaTailLayout` */
  datatype DeltaLayout = DeltaLayout(recordCount: nat, blockSize: nat, anchorsOff: nat, deltasOff: nat, keyIdsOff: Option<nat>)

  /** `parse_delta_tail_layout` */
  function ParseDeltaTail(data: Bytes, tailPtr: nat): Result<DeltaLayout>
  {
    if tailPtr + 12 > |data| then Err(OutOfBounds)
    else
      var recordCount := ReadLe(data[tailPtr..tailPtr + 4]);
      var blockSize := ReadLe(data[tailPtr + 4..tailPtr + 8]);
      var flags := ReadLe(data[tailPtr + 8..tailPtr + 10]);
      var anchorCount := ReadLe(data[tailPtr + 10..tailPtr + 12]);
      var anchorsOff := tailPtr + AlignTo(12, 8);
      var deltasOff := anchorsOff + anchorCount * 8;
      var deltasEnd := deltasOff + recordCount * 4;
      var keyIdsOff := if flags % 2 == 1 then None else Some(deltasEnd);
      if (if flags % 2 == 1 then deltasEnd else deltasEnd + recordCount * 2) > |data| then Err(OutOfBounds)
      else Ok(DeltaLayout(recordCount, blockSize, anchorsOff, deltasOff, keyIdsOff))
  }

  /** `delta_record_offset` */
  function DeltaOffset(data: Bytes, layout: DeltaLayout, index: nat): Result<nat>
  {
    if index >= layout.recordCount then Err(OutOfBounds)
    else
      match ReadU(data, layout.anchorsOff + index / Block(layout.blockSize) * 8, 8)
      case None => Err(OutOfBounds)
      case Some(anchor) =>
        match ReadU(data, layout.deltasOff + index * 4, 4)
        case None => Err(OutOfBounds)
        case Some(delta) => if anchor + delta >= U64 then Err(OutOfBounds) else Ok(anchor + delta)
  }

  // ── What a reader gets back ───────────────────────────────────────────────

  /** Offsets, count and block size are within the widths of their fields. */
  predicate Indexable(offs: seq<nat>, blockSize: nat)
  {
    |offs| < U32 && blockSize < U32 && forall k :: 0 <= k < |offs| ==> offs[k] < U64
  }

  lemma {:induction false} DeltaHeaderReads(data: Bytes, off: nat, n: nat, blockSize: nat, anchorCount: nat)
    requires At(data, off, DeltaHeader(n, blockSize, anchorCount)) && n < U32 && blockSize < U32
    ensures ReadU(data, off, 4) == Some(n) && ReadU(data, off + 4, 4) == Some(blockSize)
    ensures ReadU(data, off + 8, 2) == Some(1) && ReadU(data, off + 10, 2) == Some(anchorCount % U16)
  {
    Pow256Values();
    var a, b, c, d := Le(n, 4), Le(blockSize, 4), Le(1, 2), Le(anchorCount, 2);
    RoundUpUnique(12, 8, 16);
    AtConcat(data, off, a + b + c + d, Zeros(4));
    AtConcat(data, off, a + b + c, d);
    AtConcat(data, off, a + b, c);
    AtConcat(data, off, a, b);
    AtLe(data, off, n, 4);
    AtLe(data, off + 4, blockSize, 4);
    AtLe(data, off + 8, 1, 2);
    AtLe(data, off + 10, anchorCount, 2);
  }

  lemma {:induction false} DeltaParts(data: Bytes, tailPtr: nat, offs: seq<nat>, blockSize: nat, ptr: nat)
    requires Indexable(offs, blockSize)
    requires DeltaTail(offs, ptr, blockSize).Ok? && At(data, tailPtr, DeltaTail(offs, ptr, blockSize).value)
    ensures var anchors := Anchors(offs, Block(blockSize));
            && Deltas(offs, anchors, Block(blockSize), 0).Ok?
            && At(data, tailPtr, DeltaHeader(|offs|, blockSize, |anchors|))
            && At(data, tailPtr + 16, Fields(anchors, 8))
            && At(data, tailPtr + 16 + 8 * |anchors|, Fields(Deltas(offs, anchors, Block(blockSize), 0).value, 4))
  {
    hide DeltaHeader, Fields, Deltas, Anchors, Footer;
    var anchors := Anchors(offs, Block(blockSize));
    var header, deltas := DeltaHeader(|offs|, blockSize, |anchors|), Deltas(offs, anchors, Block(blockSize), 0).value;
    AtConcat(data, tailPtr, header + Fields(anchors, 8) + Fields(deltas, 4), Footer(ptr));
    AtConcat(data, tailPtr, header + Fields(anchors, 8), Fields(deltas, 4));
    AtConcat(data, tailPtr, header, Fields(anchors, 8));
  }

  lemma {:induction false} AlignTwelve()
    ensures AlignTo(12, 8) == 16
  {
    SmallPowers();
    AlignsAtPowers(12, 8);
    RoundUpUnique(12, 8, 16);
  }

  /**
   Parsing a written delta index after any prefix finds its counts, and finds the deltas where they are
   exactly when the number of anchors fits its two bytes.
   */
  lemma {:induction false} DeltaTailParses(data: Bytes, tailPtr: nat, offs: seq<nat>, blockSize: nat, ptr: nat)
    requires Indexable(offs, blockSize)
    requires DeltaTail(offs, ptr, blockSize).Ok? && At(data, tailPtr, DeltaTail(offs, ptr, blockSize).value)
    ensures var anchors := AnchorCount(|offs|, Block(blockSize));
            ParseDeltaTail(data, tailPtr) ==
            Ok(DeltaLayout(|offs|, blockSize, tailPtr + 16, tailPtr + 16 + 8 * (anchors % U16), None))
    ensures var layout := ParseDeltaTail(data, tailPtr).value;
            layout.deltasOff == tailPtr + 16 + 8 * AnchorCount(|offs|, Block(blockSize)) <==>
            AnchorCount(|offs|, Block(blockSize)) < U16
  {
    hide DeltaHeader, Fields, Deltas, Anchors, DeltaTail;
    DeltaParts(data, tailPtr, offs, blockSize, ptr);
    var anchors := AnchorCount(|offs|, Block(blockSize));
    DeltaHeaderReads(data, tailPtr, |offs|, blockSize, anchors);
    AlignTwelve();
    ModUnique(anchors, U16, anchors / U16, anchors % U16);
  }

  /** With at most 65535 anchors, the delta index gives back the offset of every record. */
  lemma {:induction false} DeltaTailRoundTrip(data: Bytes, tailPtr: nat, offs: seq<nat>, blockSize: nat, ptr: nat,
      index: nat)
    requires Indexable(offs, blockSize) && AnchorCount(|offs|, Block(blockSize)) < U16
    requires DeltaTail(offs, ptr, blockSize).Ok? && At(data, tailPtr, DeltaTail(offs, ptr, blockSize).value)
    ensures ParseDeltaTail(data, tailPtr).Ok?
    ensures DeltaOffset(data, ParseDeltaTail(data, tailPtr).value, index) ==
            if index < |offs| then Ok(offs[index]) else Err(OutOfBounds)
  {
    hide DeltaHeader, Fields, Deltas, DeltaTail, ParseDeltaTail, BlockStart, Anchors, At, AnchorCount, ReadU;
    DeltaTailParses(data, tailPtr, offs, blockSize, ptr);
    DeltaParts(data, tailPtr, offs, blockSize, ptr);
    if index < |offs| {
      var a := Block(blockSize);
      var anchors := Anchors(offs, a);
      var deltas := Deltas(offs, anchors, a, 0).value;
      Pow256Values();
      AnchorIs(offs, a, index);
      DeltaIs(offs, a, 0, index);
      FieldReads(data, tailPtr + 16, anchors, 8, index / a);
      FieldReads(data, tailPtr + 16 + 8 * |anchors|, deltas, 4, index);
    }
  }

  /** Wherever both indexes of the same records are written, their lookups agree. */
  lemma {:induction false} DeltaRefinesClassic(data: Bytes, tailPtr: nat, ptr: nat, blockSize: nat, data': Bytes,
      tailPtr': nat, ptr': nat, offs: seq<nat>, index: nat)
    requires Indexable(offs, blockSize) && AnchorCount(|offs|, Block(blockSize)) < U16 && index < |offs|
    requires DeltaTail(offs, ptr, blockSize).Ok? && At(data, tailPtr, DeltaTail(offs, ptr, blockSize).value)
    requires At(data', tailPtr', ClassicTail(offs, ptr'))
    ensures ParseDeltaTail(data, tailPtr).Ok?
    ensures DeltaOffset(data, ParseDeltaTail(data, tailPtr).value, index).ToOption() ==
            ClassicOffset(data', tailPtr' + 4, index) == Some(offs[index])
  {
    hide ParseDeltaTail, DeltaOffset, DeltaTail, ClassicEntries, ClassicOffset;
    DeltaTailRoundTrip(data, tailPtr, offs, blockSize, ptr, index);
    AtConcat(data', tailPtr', Le(|offs|, 4) + ClassicEntries(offs, 0), Footer(ptr'));
    AtConcat(data', tailPtr', Le(|offs|, 4), ClassicEntries(offs, 0));
    ClassicReads(data', tailPtr' + 4, offs, 0, index);
  }
}
