/** The v1.3 schema, its writer options, and the cell plan a reader derives from the preamble flags. */
module CompactSchema {
  import opened Bytes
  import opened Align

  const SIGIL_INT: Byte := 61      // =
  const SIGIL_FLOAT: Byte := 126   // ~
  const SIGIL_BOOL: Byte := 63     // ?
  const SIGIL_KEYWORD: Byte := 36  // $
  const SIGIL_STR: Byte := 34      // "
  const SIGIL_TIME: Byte := 64     // @
  const SIGIL_BINARY: Byte := 60   // <
  const SIGIL_LINK: Byte := 38     // &
  const SIGIL_NULL: Byte := 94     // ^

  // Preamble flag bits
  const FLAG_COLUMNAR: nat := 0
  const FLAG_SCHEMA_EMBEDDED: nat := 1
  const FLAG_PAX: nat := 2
  const FLAG_DENSE_FRAMES: nat := 4
  const FLAG_PACKED_BOOLS: nat := 5
  const FLAG_NARROW_CELLS: nat := 6
  const FLAG_DELTA_TAIL: nat := 7
  const FLAG_DENSE_WIRE_REORDER: nat := 8

  /** The preamble flags: one named bit each, as the `u16` field carries them. */
  datatype WireFlags = WireFlags(columnar: bool, embedded: bool, pax: bool, dense: bool, packed: bool,
                         narrow: bool, delta: bool, reorder: bool) {
    /** `flags & FLAG_V13_COMPACT_MASK != 0` */
    predicate Compact() { dense || packed || narrow || delta || reorder }

    function Value(): (v: nat)
      ensures v < U16
    {
      var bits := [columnar, embedded, pax, false, dense, packed, narrow, delta, reorder];
      assert Pow2(9) == 512;
      BitsValue(bits)
    }
  }

  function FlagsOf(v: nat): WireFlags
  {
    WireFlags(Bit(v, FLAG_COLUMNAR), Bit(v, FLAG_SCHEMA_EMBEDDED), Bit(v, FLAG_PAX), Bit(v, FLAG_DENSE_FRAMES),
          Bit(v, FLAG_PACKED_BOOLS), Bit(v, FLAG_NARROW_CELLS), Bit(v, FLAG_DELTA_TAIL), Bit(v, FLAG_DENSE_WIRE_REORDER))
  }

  lemma {:induction false} FlagsRoundTrip(f: WireFlags)
    ensures FlagsOf(f.Value()) == f
  {
    var bits := [f.columnar, f.embedded, f.pax, false, f.dense, f.packed, f.narrow, f.delta, f.reorder];
    BitOfBits(bits, FLAG_COLUMNAR);
    BitOfBits(bits, FLAG_SCHEMA_EMBEDDED);
    BitOfBits(bits, FLAG_PAX);
    BitOfBits(bits, FLAG_DENSE_FRAMES);
    BitOfBits(bits, FLAG_PACKED_BOOLS);
    BitOfBits(bits, FLAG_NARROW_CELLS);
    BitOfBits(bits, FLAG_DELTA_TAIL);
    BitOfBits(bits, FLAG_DENSE_WIRE_REORDER);
  }

  /** `CompactOptions` */
  datatype Options = Options(dense: bool, packed: bool, narrow: bool, delta: bool, promote: bool,
                             maxRatio: real, minRecords: nat, blockSize: nat, u16Lengths: bool, reorder: bool) {
    /** `preamble_flags`, with the bit for the embedded schema that `finish` adds. */
    function Wire(): WireFlags
    {
      WireFlags(false, true, false, dense, packed, narrow, delta, reorder)
    }
  }

  datatype Schema = Schema(keys: seq<Bytes>, sigils: Bytes, widths: Bytes, attrs: Bytes, pool: seq<Bytes>) {
    /** One sigil, width and attribute byte for each key, as every builder and parser leaves it. */
    predicate Shaped() { |sigils| == |keys| && |widths| == |keys| && |attrs| == |keys| }

    function Count(): nat { |keys| }

    predicate IsPromoted(slot: nat) { slot < |attrs| && Bit(attrs[slot], 0) }

    predicate IsU16Len(slot: nat) { slot < |attrs| && Bit(attrs[slot], 1) }

    function StrLenPrefix(slot: nat): nat
    {
      if IsPromoted(slot) then 0 else if IsU16Len(slot) then 2 else 4
    }

    function CellWidth(slot: nat): (w: nat)
      ensures w >= 1
    {
      if IsPromoted(slot) || (slot < |sigils| && sigils[slot] == SIGIL_KEYWORD) then 2
      else
        var w := if slot < |widths| then widths[slot] else 0;
        if w == 0 then 8 else w
    }
  }

  /** `bool_slots`, the slots from `i` on. */
  function BoolSlotsFrom(sigils: Bytes, i: nat): (s: seq<nat>)
    requires i <= |sigils|
    ensures forall x :: x in s <==> i <= x < |sigils| && sigils[x] == SIGIL_BOOL
    ensures forall j, k :: 0 <= j < k < |s| ==> s[j] < s[k]
    decreases |sigils| - i
  {
    if i == |sigils| then []
    else if sigils[i] == SIGIL_BOOL then
      var rest := BoolSlotsFrom(sigils, i + 1);
      assert forall k :: 0 <= k < |rest| ==> rest[k] in rest;
      [i] + rest
    else BoolSlotsFrom(sigils, i + 1)
  }

  function BoolSlots(schema: Schema): (s: seq<nat>)
    ensures forall x :: x in s <==> 0 <= x < |schema.sigils| && schema.sigils[x] == SIGIL_BOOL
    ensures forall j, k :: 0 <= j < k < |s| ==> s[j] < s[k]
  {
    BoolSlotsFrom(schema.sigils, 0)
  }

  /** `iter().position` */
  function Position<T(==)>(s: seq<T>, x: T): (i: nat)
    requires x in s
    ensures i < |s| && s[i] == x
    ensures forall j :: 0 <= j < i ==> s[j] != x
  {
    if s[0] == x then 0 else 1 + Position(s[1..], x)
  }

  /** `RowCellPlan` without the table it precomputes from these fields. */
  datatype Plan = Plan(boolSlots: seq<nat>, packed: bool, narrow: bool, denseAllowed: bool, reorder: bool) {
    function FirstBool(): Option<nat> { if |boolSlots| == 0 then None else Some(boolSlots[0]) }

    /** Bytes of the shared packed-bool word. */
    function BoolWordBytes(): nat
    {
      if !packed || |boolSlots| == 0 then 0 else (|boolSlots| + 7) / 8
    }

    predicate InWord(slot: nat) { packed && slot in boolSlots }

    /** The cell width the plan uses for a slot. */
    function Width(schema: Schema, slot: nat): (w: nat)
      ensures w >= 1
    {
      if narrow then schema.CellWidth(slot) else 8
    }
  }

  function PlanFor(schema: Schema, flags: WireFlags): (plan: Plan)
  {
    Plan(BoolSlots(schema), flags.packed, flags.narrow, flags.dense, flags.reorder)
  }

  predicate IsVar(sigil: Byte) { sigil == SIGIL_STR || sigil == SIGIL_BINARY }

  /** The slots the plan's word holds are the bool slots of the schema. */
  ghost predicate PlanFits(plan: Plan, schema: Schema)
  {
    schema.Shaped() && plan.boolSlots == BoolSlots(schema)
  }
}
