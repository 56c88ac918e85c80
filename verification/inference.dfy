/**
 What the compact writer infers from the cells it has buffered: column sigils, integer widths, promoted
 string columns with their value pool, and two-byte string lengths. The inferred schema admits every cell
 it was inferred from.
 */
module Inference {
  import opened Bytes
  import opened CompactSchema
  import opened WireLength
  import Columns
  import opened TableLayout
  import opened RowObject
  import opened CompactCells
  import CompactRecord

  // ── What the writer keeps while cells arrive ──────────────────────────────

  /** `mark_slot_sigil`: the first sigil seen, except that a null gives way to any other. */
  function MarkSigil(cur: Byte, sigil: Byte): Byte
  {
    if cur == 0 || (cur == SIGIL_NULL && sigil != SIGIL_NULL) then sigil else cur
  }

  function SeenSigil(h: seq<Write>, slot: nat): Byte
  {
    if |h| == 0 then 0
    else
      var cur, w := SeenSigil(h[..|h| - 1], slot), h[|h| - 1];
      if w.slot == slot then MarkSigil(cur, SigilOf(w.cell)) else cur
  }

  function SeenMin(h: seq<Write>, slot: nat): Int64
  {
    if |h| == 0 then 0x7FFF_FFFF_FFFF_FFFF
    else
      var cur, w := SeenMin(h[..|h| - 1], slot), h[|h| - 1];
      if w.slot == slot && w.cell.I64? && w.cell.i < cur then w.cell.i else cur
  }

  function SeenMax(h: seq<Write>, slot: nat): Int64
  {
    if |h| == 0 then -0x8000_0000_0000_0000
    else
      var cur, w := SeenMax(h[..|h| - 1], slot), h[|h| - 1];
      if w.slot == slot && w.cell.I64? && w.cell.i > cur then w.cell.i else cur
  }

  function SeenStrings(h: seq<Write>, slot: nat): seq<Bytes>
  {
    if |h| == 0 then []
    else
      var cur, w := SeenStrings(h[..|h| - 1], slot), h[|h| - 1];
      if w.slot == slot && w.cell.Str? then cur + [w.cell.s] else cur
  }

  // ── Inference ─────────────────────────────────────────────────────────────

  /** `infer_int_width` */
  function IntWidth(min: Int64, max: Int64): (w: Byte)
    ensures SmallWidth(w)
    ensures forall v: int :: min <= v <= max && -0x8000_0000_0000_0000 <= v < 0x8000_0000_0000_0000 ==> FitsWidth(v, w)
  {
    Pow256Values();
    if min >= 0 && max <= 255 then 1
    else if min >= -0x8000 && max <= 0x7FFF then 2
    else if min >= -0x8000_0000 && max <= 0x7FFF_FFFF then 4
    else 8
  }

  /** `infer_narrow_widths`, one slot. */
  function WidthOf(sigil: Byte, min: Int64, max: Int64): Byte
  {
    if sigil == SIGIL_INT then IntWidth(min, max) else if sigil == SIGIL_FLOAT then 8 else 0
  }

  function Distinct(vals: seq<Bytes>): set<Bytes> { set v | v in vals }

  /** A string column with few enough distinct values among enough of them. */
  predicate Promotable(sigil: Byte, vals: seq<Bytes>, maxRatio: real, minRecords: nat)
  {
    sigil == SIGIL_STR && |vals| >= minRecords && |vals| > 0 && (|Distinct(vals)| as real) / (|vals| as real) <= maxRatio
  }

  /** `intern_value` for each value in turn. */
  function Intern(pool: seq<Bytes>, vals: seq<Bytes>): (p: seq<Bytes>)
  {
    if |vals| == 0 then pool
    else
      var p := Intern(pool, vals[..|vals| - 1]);
      if vals[|vals| - 1] in p then p else p + [vals[|vals| - 1]]
  }

  /** The pool after the first `n` slots. */
  function PoolOf(sigils: Bytes, cols: seq<seq<Bytes>>, maxRatio: real, minRecords: nat, n: nat): seq<Bytes>
    requires n <= |sigils| == |cols|
  {
    if n == 0 then []
    else
      var pool := PoolOf(sigils, cols, maxRatio, minRecords, n - 1);
      if Promotable(sigils[n - 1], cols[n - 1], maxRatio, minRecords) then Intern(pool, cols[n - 1]) else pool
  }

  /** `scan_u16_string_lengths`: every value fits a two-byte length. */
  predicate ShortStrings(vals: seq<Bytes>)
  {
    forall k :: 0 <= k < |vals| ==> |vals[k]| < U16
  }

  /** The attribute byte of a slot: promoted, or marked for two-byte lengths. */
  function AttrOf(sigil: Byte, vals: seq<Bytes>, opts: Options): Byte
  {
    if opts.promote && Promotable(sigil, vals, opts.maxRatio, opts.minRecords) then 1
    else if opts.u16Lengths && sigil == SIGIL_STR && ShortStrings(vals) then 2
    else 0
  }

  lemma {:induction false} AttrBits()
    ensures !Bit(0, 0) && !Bit(0, 1) && Bit(1, 0) && !Bit(1, 1) && !Bit(2, 0) && Bit(2, 1)
  {
  }

  /** `build_extended_schema` of the writer, from what it has kept. */
  function Inferred(keys: seq<Bytes>, seen: Bytes, mins: seq<Int64>, maxs: seq<Int64>, cols: seq<seq<Bytes>>,
      opts: Options): (schema: Schema)
    requires |seen| == |mins| == |maxs| == |cols| == |keys|
    ensures schema.Shaped() && schema.keys == keys
  {
    var n := |keys|;
    var sigils: Bytes := seq(n, s requires 0 <= s < n => if seen[s] == 0 then SIGIL_STR else seen[s]);
    var attrs: Bytes := seq(n, s requires 0 <= s < n => AttrOf(sigils[s], cols[s], opts));
    var widths: Bytes := seq(n, s requires 0 <= s < n =>
      if !opts.narrow then 0 else if attrs[s] == 1 then 2 else WidthOf(sigils[s], mins[s], maxs[s]));
    Schema(keys, sigils, widths, attrs, if opts.promote then PoolOf(sigils, cols, opts.maxRatio, opts.minRecords, n) else [])
  }

  function SigilsSeen(n: nat, h: seq<Write>): (r: Bytes)
    ensures |r| == n && forall s :: 0 <= s < n ==> r[s] == SeenSigil(h, s)
  {
    seq(n, s requires 0 <= s => SeenSigil(h, s))
  }

  function MinsSeen(n: nat, h: seq<Write>): (r: seq<Int64>)
    ensures |r| == n && forall s :: 0 <= s < n ==> r[s] == SeenMin(h, s)
  {
    seq(n, s requires 0 <= s => SeenMin(h, s))
  }

  function MaxsSeen(n: nat, h: seq<Write>): (r: seq<Int64>)
    ensures |r| == n && forall s :: 0 <= s < n ==> r[s] == SeenMax(h, s)
  {
    seq(n, s requires 0 <= s => SeenMax(h, s))
  }

  function StringsSeen(n: nat, h: seq<Write>): (r: seq<seq<Bytes>>)
    ensures |r| == n && forall s :: 0 <= s < n ==> r[s] == SeenStrings(h, s)
  {
    seq(n, s requires 0 <= s => SeenStrings(h, s))
  }

  function SchemaOf(keys: seq<Bytes>, h: seq<Write>, opts: Options): (schema: Schema)
    ensures schema.Shaped() && schema.keys == keys
  {
    var n := |keys|;
    Inferred(keys, SigilsSeen(n, h), MinsSeen(n, h), MaxsSeen(n, h), StringsSeen(n, h), opts)
  }

  // ── The loops ─────────────────────────────────────────────────────────────

  /** `intern_value`: the value's index in the pool, which grows only for a new value. */
  method InternValue(pool: seq<Bytes>, s: Bytes) returns (r: seq<Bytes>, index: nat)
    ensures r == if s in pool then pool else pool + [s]
    ensures index < |r| && r[index] == s
  {
    if s in pool { return pool, Position(pool, s); }
    r, index := pool + [s], |pool|;
  }

  method InternAll(pool: seq<Bytes>, vals: seq<Bytes>) returns (r: seq<Bytes>)
    ensures r == Intern(pool, vals)
  {
    r := pool;
    assert vals[..0] == [];
    for k := 0 to |vals|
      invariant r == Intern(pool, vals[..k])
    {
      assert vals[..k + 1][..k] == vals[..k];
      var index: nat;
      r, index := InternValue(r, vals[k]);
    }
    assert vals[..|vals|] == vals;
  }

  method LongestColumn(cols: seq<seq<Bytes>>) returns (n: nat)
    ensures forall k :: 0 <= k < |cols| ==> |cols[k]| <= n
    ensures n == 0 || exists k :: 0 <= k < |cols| && |cols[k]| == n
  {
    n := 0;
    for s := 0 to |cols|
      invariant forall k :: 0 <= k < s ==> |cols[k]| <= n
      invariant n == 0 || exists k :: 0 <= k < s && |cols[k]| == n
    {
      if |cols[s]| > n { n := |cols[s]|; }
    }
  }

  method IsPromotable(sigil: Byte, vals: seq<Bytes>, maxRatio: real, minRecords: nat) returns (b: bool)
    ensures b == Promotable(sigil, vals, maxRatio, minRecords)
  {
    if sigil != SIGIL_STR || |vals| < minRecords { return false; }
    var distinct := CountDistinct(vals);
    if |vals| > 0 { assert vals[0] in Distinct(vals); }
    assert |vals| == 0 ==> Distinct(vals) == {};
    if distinct == 0 { return false; }
    b := (distinct as real) / (|vals| as real) <= maxRatio;
  }

  /** `scan_keyword_promotion`: which slots are promoted, and the pool of their values. */
  method ScanKeywordPromotion(sigils: Bytes, cols: seq<seq<Bytes>>, maxRatio: real, minRecords: nat)
    returns (attrs: Bytes, pool: seq<Bytes>)
    requires |sigils| == |cols|
    ensures |attrs| == |sigils|
    ensures forall s :: 0 <= s < |attrs| ==> attrs[s] == if Promotable(sigils[s], cols[s], maxRatio, minRecords) then 1 else 0
    ensures pool == PoolOf(sigils, cols, maxRatio, minRecords, |sigils|)
  {
    attrs := Zeros(|sigils|);
    pool := [];
    var recordCount := LongestColumn(cols);
    if recordCount < minRecords {
      NonePromoted(sigils, cols, maxRatio, minRecords, |sigils|);
      return;
    }
    hide Promotable, Intern;
    for slot := 0 to |sigils|
      invariant |attrs| == |sigils|
      invariant forall s :: 0 <= s < |attrs| ==>
                  attrs[s] == if s < slot && Promotable(sigils[s], cols[s], maxRatio, minRecords) then 1 else 0
      invariant pool == PoolOf(sigils, cols, maxRatio, minRecords, slot)
    {
      var promote := IsPromotable(sigils[slot], cols[slot], maxRatio, minRecords);
      if promote {
        attrs := attrs[slot := 1];
        pool := InternAll(pool, cols[slot]);
      }
    }
  }

  method CountDistinct(vals: seq<Bytes>) returns (n: nat)
    ensures n == |Distinct(vals)|
  {
    var seen: set<Bytes> := {};
    for k := 0 to |vals|
      invariant seen == Distinct(vals[..k])
    {
      assert vals[..k + 1] == vals[..k] + [vals[k]];
      seen := seen + {vals[k]};
    }
    assert vals[..|vals|] == vals;
    n := |seen|;
  }

  lemma {:induction false} NonePromoted(sigils: Bytes, cols: seq<seq<Bytes>>, maxRatio: real, minRecords: nat, n: nat)
    requires n <= |sigils| == |cols| && forall s :: 0 <= s < |cols| ==> |cols[s]| < minRecords
    ensures PoolOf(sigils, cols, maxRatio, minRecords, n) == []
  {
    if n > 0 { NonePromoted(sigils, cols, maxRatio, minRecords, n - 1); }
  }

  /** `build_extended_schema` of the writer: widths, then promotion, then string lengths. */
  method BuildSchema(keys: seq<Bytes>, seen: Bytes, mins: seq<Int64>, maxs: seq<Int64>, cols: seq<seq<Bytes>>,
      opts: Options)
    returns (schema: Schema)
    requires |seen| == |mins| == |maxs| == |cols| == |keys|
    ensures schema == Inferred(keys, seen, mins, maxs, cols, opts)
  {
    hide Promotable, PoolOf, IntWidth;
    var n := |keys|;
    var sigils: Bytes := seq(n, s requires 0 <= s < n => if seen[s] == 0 then SIGIL_STR else seen[s]);
    var widths: Bytes := if opts.narrow then seq(n, s requires 0 <= s < n => WidthOf(sigils[s], mins[s], maxs[s])) else Zeros(n);
    var attrs: Bytes, pool: seq<Bytes> := Zeros(n), [];
    if opts.promote {
      attrs, pool := ScanKeywordPromotion(sigils, cols, opts.maxRatio, opts.minRecords);
    }
    if opts.narrow {
      ghost var before := widths;
      for i := 0 to n
        invariant |widths| == n && forall s :: 0 <= s < n ==> widths[s] == if s < i && attrs[s] == 1 then 2 else before[s]
      {
        if attrs[i] == 1 { widths := widths[i := 2]; }
      }
    }
    ghost var promoted := attrs;
    if opts.u16Lengths {
      for slot := 0 to n
        invariant |attrs| == n
        invariant forall s :: 0 <= s < n ==> attrs[s] == if s < slot then AttrOf(sigils[s], cols[s], opts) else promoted[s]
      {
        if sigils[slot] == SIGIL_STR && attrs[slot] == 0 {
          var short := AllShort(cols[slot]);
          if short { attrs := attrs[slot := 2]; }
        }
      }
    }
    schema := Schema(keys, sigils, widths, attrs, pool);
    ghost var want := Inferred(keys, seen, mins, maxs, cols, opts);
    assert schema.sigils == want.sigils;
    assert schema.attrs == want.attrs;
    assert schema.widths == want.widths;
  }

  method AllShort(vals: seq<Bytes>) returns (short: bool)
    ensures short == ShortStrings(vals)
  {
    var maxLen := 0;
    for k := 0 to |vals|
      invariant forall j :: 0 <= j < k ==> |vals[j]| <= maxLen
      invariant maxLen == 0 || exists j :: 0 <= j < k && |vals[j]| == maxLen
    {
      if |vals[k]| > maxLen { maxLen := |vals[k]|; }
    }
    short := maxLen <= 0xFFFF;
  }

  // ── Soundness ─────────────────────────────────────────────────────────────

  /** The column types the writer can infer and the reader can get. */
  predicate ColumnType(sigil: Byte)
  {
    sigil == SIGIL_INT || sigil == SIGIL_FLOAT || sigil == SIGIL_BOOL || sigil == SIGIL_TIME || sigil == SIGIL_STR
  }

  /** Each slot is only ever written with values of its one type. */
  ghost predicate TypedWrites(h: seq<Write>, types: Bytes)
  {
    forall k :: 0 <= k < |h| ==>
      h[k].slot < |types| && ColumnType(types[h[k].slot]) && ValueTyped(h[k].cell, types[h[k].slot])
  }

  lemma {:induction false} SeenSigilIs(h: seq<Write>, types: Bytes, slot: nat)
    requires TypedWrites(h, types) && slot < |types|
    ensures SeenSigil(h, slot) == 0 || (SeenSigil(h, slot) == types[slot] && ColumnType(types[slot]))
    ensures forall k :: 0 <= k < |h| && h[k].slot == slot ==> SeenSigil(h, slot) == types[slot]
  {
    if |h| > 0 {
      var front := h[..|h| - 1];
      SeenSigilIs(front, types, slot);
      var w := h[|h| - 1];
      if w.slot == slot {
        assert SigilOf(w.cell) == types[slot];
      } else {
        assert forall k :: 0 <= k < |h| && h[k].slot == slot ==> k < |front| && front[k] == h[k];
      }
    }
  }

  lemma {:induction false} SeenRange(h: seq<Write>, slot: nat, k: nat)
    requires k < |h| && h[k].slot == slot && h[k].cell.I64?
    ensures SeenMin(h, slot) <= h[k].cell.i <= SeenMax(h, slot)
    decreases |h|
  {
    if k < |h| - 1 { SeenRange(h[..|h| - 1], slot, k); }
  }

  lemma {:induction false} SeenString(h: seq<Write>, slot: nat, k: nat)
    requires k < |h| && h[k].slot == slot && h[k].cell.Str?
    ensures h[k].cell.s in SeenStrings(h, slot)
    decreases |h|
  {
    if k < |h| - 1 { SeenString(h[..|h| - 1], slot, k); }
  }

  lemma {:induction false} InternHolds(pool: seq<Bytes>, vals: seq<Bytes>)
    ensures pool <= Intern(pool, vals)
    ensures forall k :: 0 <= k < |vals| ==> vals[k] in Intern(pool, vals)
    ensures NoRepeats(pool) ==> NoRepeats(Intern(pool, vals))
  {
    if |vals| > 0 { InternHolds(pool, vals[..|vals| - 1]); }
  }

  ghost predicate NoRepeats(pool: seq<Bytes>)
  {
    forall i, j :: 0 <= i < j < |pool| ==> pool[i] != pool[j]
  }

  lemma {:induction false} PoolHolds(sigils: Bytes, cols: seq<seq<Bytes>>, maxRatio: real, minRecords: nat, n: nat,
      slot: nat)
    requires n <= |sigils| == |cols|
    ensures NoRepeats(PoolOf(sigils, cols, maxRatio, minRecords, n))
    ensures slot < n && Promotable(sigils[slot], cols[slot], maxRatio, minRecords) ==>
              forall k :: 0 <= k < |cols[slot]| ==> cols[slot][k] in PoolOf(sigils, cols, maxRatio, minRecords, n)
  {
    hide Promotable;
    if n > 0 {
      PoolHolds(sigils, cols, maxRatio, minRecords, n - 1, slot);
      InternHolds(PoolOf(sigils, cols, maxRatio, minRecords, n - 1), cols[n - 1]);
    }
  }

  /** The value pool never repeats a value. */
  lemma {:induction false} PoolIsDuplicateFree(keys: seq<Bytes>, h: seq<Write>, opts: Options)
    ensures NoRepeats(SchemaOf(keys, h, opts).pool)
  {
    hide Promotable, Intern;
    var n := |keys|;
    if opts.promote {
      PoolHolds(SchemaOf(keys, h, opts).sigils, StringsSeen(n, h), opts.maxRatio, opts.minRecords, n, 0);
    }
  }

  /** A cell as the compact writer buffers it; nulls and binaries never are. */
  function ToCompact(c: Columns.Cell): CompactCell
  {
    match c
    case I64(v) => CompactCell.I64(v)
    case F64(bits) => CompactCell.F64(bits)
    case Bool(b) => CompactCell.Bool(b)
    case Time(t) => CompactCell.Time(t)
    case Str(s) => CompactCell.Str(s)
    case _ => CompactCell.Null
  }

  /** What a slot of the inferred schema says, in terms of the cells it was inferred from. */
  lemma {:induction false} SlotInferred(keys: seq<Bytes>, h: seq<Write>, opts: Options, types: Bytes, slot: nat)
    requires TypedWrites(h, types) && |types| == |keys| && slot < |keys|
    ensures var schema, seen := SchemaOf(keys, h, opts), SeenSigil(h, slot);
            var vals := SeenStrings(h, slot);
            && schema.sigils[slot] == (if seen == 0 then SIGIL_STR else seen)
            && (schema.sigils[slot] == types[slot] || seen == 0) && ColumnType(schema.sigils[slot])
            && schema.IsPromoted(slot) == (opts.promote && Promotable(schema.sigils[slot], vals, opts.maxRatio, opts.minRecords))
            && (schema.IsU16Len(slot) ==> schema.sigils[slot] == SIGIL_STR && ShortStrings(vals))
            && (!opts.narrow ==> schema.widths[slot] == 0)
            && (opts.narrow && !schema.IsPromoted(slot) ==>
                  schema.widths[slot] == WidthOf(schema.sigils[slot], SeenMin(h, slot), SeenMax(h, slot)))
  {
    hide Promotable, PoolOf, ShortStrings, IntWidth;
    AttrBits();
    SeenSigilIs(h, types, slot);
  }

  /** Every slot of the inferred schema is typed as the writers and readers of compact records expect. */
  lemma {:induction false} SlotIsTyped(keys: seq<Bytes>, h: seq<Write>, opts: Options, types: Bytes, slot: nat)
    requires TypedWrites(h, types) && |types| == |keys| && slot < |keys|
    ensures var schema := SchemaOf(keys, h, opts);
            SlotTyped(slot, schema, CompactRecord.PlanOf(schema, opts)) && (!opts.narrow ==> schema.widths[slot] == 0)
  {
    hide SchemaOf, SeenSigil, SeenMin, SeenMax, SeenStrings, BoolSlots, ShortStrings, Bit;
    SlotInferred(keys, h, opts, types, slot);
  }

  /** At most 64 bool columns, as many as a packed word holds. */
  predicate FewBools(schema: Schema, opts: Options) { opts.packed ==> |BoolSlots(schema)| <= 64 }

  lemma {:induction false} InferredIsTyped(keys: seq<Bytes>, h: seq<Write>, opts: Options, types: Bytes)
    requires TypedWrites(h, types) && |types| == |keys| && FewBools(SchemaOf(keys, h, opts), opts)
    ensures Typed(SchemaOf(keys, h, opts), CompactRecord.PlanOf(SchemaOf(keys, h, opts), opts))
  {
    hide SchemaOf, SlotTyped, BoolSlots, TypedWrites;
    forall slot | 0 <= slot < |keys|
      ensures SlotTyped(slot, SchemaOf(keys, h, opts), CompactRecord.PlanOf(SchemaOf(keys, h, opts), opts))
      ensures !opts.narrow ==> SchemaOf(keys, h, opts).widths[slot] == 0
    {
      SlotIsTyped(keys, h, opts, types, slot);
    }
  }

  /**
   Inference is sound: every cell the schema was inferred from fits its column, at the inferred width, in
   the value pool, or under its length prefix.
   */
  lemma {:induction false} InferredAdmits(keys: seq<Bytes>, h: seq<Write>, opts: Options, types: Bytes, k: nat)
    requires TypedWrites(h, types) && |types| == |keys| && k < |h| && |SchemaOf(keys, h, opts).pool| <= U16
    ensures var schema := SchemaOf(keys, h, opts);
            CellFits(ToCompact(h[k].cell), h[k].slot, schema, CompactRecord.PlanOf(schema, opts))
  {
    hide SchemaOf, SeenSigil, SeenMin, SeenMax, SeenStrings, BoolSlots, Position, Bit;
    var slot := h[k].slot;
    SlotInferred(keys, h, opts, types, slot);
    SeenSigilIs(h, types, slot);
    if h[k].cell.I64? {
      SeenRange(h, slot, k);
      Pow256Values();
    } else if h[k].cell.Str? {
      SeenString(h, slot, k);
      if SchemaOf(keys, h, opts).IsPromoted(slot) { InPool(keys, h, opts, types, slot, h[k].cell.s); }
    }
  }

  lemma {:induction false} InPool(keys: seq<Bytes>, h: seq<Write>, opts: Options, types: Bytes, slot: nat, s: Bytes)
    requires TypedWrites(h, types) && |types| == |keys| && slot < |keys| && SchemaOf(keys, h, opts).IsPromoted(slot)
    requires s in SeenStrings(h, slot)
    ensures s in SchemaOf(keys, h, opts).pool
  {
    hide Intern, Promotable, Bit;
    SlotInferred(keys, h, opts, types, slot);
    var n := |keys|;
    var cols := StringsSeen(n, h);
    assert cols[slot] == SeenStrings(h, slot);
    PoolHolds(SchemaOf(keys, h, opts).sigils, cols, opts.maxRatio, opts.minRecords, n, slot);
  }
}
