/**
 A v1.2 row object: magic, length, presence bitmask, an offset table sorted by slot, and the values in the
 order they were written. The resolver finds each written value and nothing else, whatever that order was.
 */
module RowObject {
  import opened Bytes
  import opened Bitmask
  import opened CompactSchema
  import opened Columns
  import DenseWalk
  import CompactCells
  import CompactRecord

  /** One `write_*` call on an open object. */
  datatype Write = Write(slot: nat, cell: Cell)

  /** The bytes a `write_*` call appends. */
  function ValueBytes(c: Cell): Bytes
  {
    match c
    case I64(v) => Le64(v)
    case F64(bits) => Le(bits, 8)
    case Bool(b) => [if b then 1 else 0] + Zeros(7)
    case Time(t) => Le64(t)
    case Str(s) => CompactCells.StrCell(s, 4)
    case Binary(raw) => CompactCells.StrCell(raw, 4)
    case Null => Zeros(8)
    case Absent => []
  }

  /** Distinct slots of a schema of `n` keys, each given a value. */
  ghost predicate Writable(writes: seq<Write>, n: nat)
  {
    && (forall k :: 0 <= k < |writes| ==> writes[k].slot < n && !writes[k].cell.Absent?)
    && forall j, k :: 0 <= j < k < |writes| ==> writes[j].slot != writes[k].slot
  }

  /** The cell written to a slot. */
  function Lookup(writes: seq<Write>, slot: nat): (c: Option<Cell>)
  {
    if |writes| == 0 then None
    else if writes[|writes| - 1].slot == slot then Some(writes[|writes| - 1].cell)
    else Lookup(writes[..|writes| - 1], slot)
  }

  function IndexOf(writes: seq<Write>, slot: nat): (k: nat)
    requires Lookup(writes, slot).Some?
    ensures k < |writes| && writes[k].slot == slot && Lookup(writes, slot) == Some(writes[k].cell)
  {
    if writes[|writes| - 1].slot == slot then |writes| - 1 else IndexOf(writes[..|writes| - 1], slot)
  }

  lemma {:induction false} LookupAt(writes: seq<Write>, n: nat, k: nat)
    requires Writable(writes, n) && k < |writes|
    ensures Lookup(writes, writes[k].slot) == Some(writes[k].cell) && IndexOf(writes, writes[k].slot) == k
    decreases |writes|
  {
    if k < |writes| - 1 { LookupAt(writes[..|writes| - 1], n, k); }
  }

  function Values(writes: seq<Write>): Bytes
  {
    if |writes| == 0 then [] else Values(writes[..|writes| - 1]) + ValueBytes(writes[|writes| - 1].cell)
  }

  function Present(writes: seq<Write>, n: nat): (p: seq<bool>)
    ensures |p| == n && forall s :: 0 <= s < n ==> p[s] == Lookup(writes, s).Some?
  {
    seq(n, s requires 0 <= s => Lookup(writes, s).Some?)
  }

  // ── The object ────────────────────────────────────────────────────────────

  /** Where the values start: after the bitmask and a table with room for every key. */
  function ValueStart(n: nat): (s: nat)
    ensures s >= 8 + MaskLen(n) + 2 * n
  {
    RoundUp(8 + MaskLen(n) + 2 * n, 8)
  }

  /** Where the value of write `k` starts, from the object's first byte. */
  function Rel(writes: seq<Write>, n: nat, k: nat): nat
    requires k < |writes|
  {
    ValueStart(n) + |Values(writes[..k])|
  }

  /** The offset table, in slot order. */
  function Table(writes: seq<Write>, n: nat, slots: seq<nat>): (rels: seq<nat>)
    requires forall s :: s in slots ==> Lookup(writes, s).Some?
    ensures |rels| == |slots| && forall i :: 0 <= i < |slots| ==> rels[i] == Rel(writes, n, IndexOf(writes, slots[i]))
  {
    seq(|slots|, i requires 0 <= i < |slots| => assert slots[i] in slots; Rel(writes, n, IndexOf(writes, slots[i])))
  }

  function TableBytes(writes: seq<Write>, n: nat): Bytes
  {
    Fields(Table(writes, n, PresentFrom(Present(writes, n), 0)), 2)
  }

  /** Everything before the values, for an object of `total` bytes. */
  function Head(writes: seq<Write>, n: nat, total: nat): Bytes
  {
    var table := TableBytes(writes, n);
    var head := Le(CompactRecord.MAGIC_OBJ, 4) + Le(total, 4) + MaskBytes(Present(writes, n)) + table;
    head + Zeros(if |head| < ValueStart(n) then ValueStart(n) - |head| else 0)
  }

  function ObjectLen(writes: seq<Write>, n: nat): nat { ValueStart(n) + |Values(writes)| }

  /** The object that `end_object` leaves behind. */
  function Object(writes: seq<Write>, n: nat): Bytes
  {
    Head(writes, n, ObjectLen(writes, n)) + Values(writes)
  }

  lemma {:induction false} ValuesStep(writes: seq<Write>, k: nat)
    requires k < |writes|
    ensures Values(writes[..k + 1]) == Values(writes[..k]) + ValueBytes(writes[k].cell)
  {
    assert writes[..k + 1][..k] == writes[..k];
  }

  lemma {:induction false} ValuesPrefix(writes: seq<Write>, k: nat)
    requires k <= |writes|
    ensures Values(writes[..k]) <= Values(writes)
    decreases |writes| - k
  {
    if k < |writes| {
      ValuesStep(writes, k);
      ValuesPrefix(writes, k + 1);
    } else {
      assert writes[..k] == writes;
    }
  }

  /** Distinct slots below `n` number at most `n`, so the table has room for all of them. */
  lemma {:induction false} FewSlots(slots: seq<nat>, n: nat)
    requires forall j, k :: 0 <= j < k < |slots| ==> slots[j] < slots[k]
    requires forall k :: 0 <= k < |slots| ==> slots[k] < n
    ensures |slots| <= n
  {
    if |slots| > 0 {
      FewSlots(slots[..|slots| - 1], slots[|slots| - 1]);
    }
  }

  lemma {:induction false} HeadLen(writes: seq<Write>, n: nat, total: nat)
    ensures |Head(writes, n, total)| == ValueStart(n)
    ensures |TableBytes(writes, n)| <= 2 * n
    ensures |PresentFrom(Present(writes, n), 0)| <= n
  {
    hide MaskBytes, PresentFrom, Fields;
    var slots := PresentFrom(Present(writes, n), 0);
    PresentAscends(Present(writes, n), 0);
    assert forall k :: 0 <= k < |slots| ==> slots[k] in slots;
    FewSlots(slots, n);
  }

  // ── What the resolver finds ───────────────────────────────────────────────

  lemma {:induction false} ObjectParts(data: Bytes, obj: nat, writes: seq<Write>, n: nat)
    requires At(data, obj, Object(writes, n))
    ensures At(data, obj, Le(CompactRecord.MAGIC_OBJ, 4)) && At(data, obj + 4, Le(ObjectLen(writes, n), 4))
    ensures At(data, obj + 8, MaskBytes(Present(writes, n)))
    ensures At(data, obj + 8 + MaskLen(n), TableBytes(writes, n))
    ensures At(data, obj + ValueStart(n), Values(writes))
    ensures |Object(writes, n)| == ObjectLen(writes, n)
  {
    hide MaskBytes, TableBytes, Values, Le, Present, At;
    var total := ObjectLen(writes, n);
    HeadLen(writes, n, total);
    var a, b, c, d := Le(CompactRecord.MAGIC_OBJ, 4), Le(total, 4), MaskBytes(Present(writes, n)), TableBytes(writes, n);
    var head := a + b + c + d;
    AtConcat(data, obj, Head(writes, n, total), Values(writes));
    AtConcat(data, obj, head, Zeros(if |head| < ValueStart(n) then ValueStart(n) - |head| else 0));
    AtConcat(data, obj, a + b + c, d);
    AtConcat(data, obj, a + b, c);
    AtConcat(data, obj, a, b);
  }

  /** The table entry of a written slot, at the slot's rank among the present ones. */
  lemma {:induction false} EntryOf(data: Bytes, off: nat, writes: seq<Write>, n: nat, slot: nat)
    requires At(data, off, TableBytes(writes, n)) && slot < n && Lookup(writes, slot).Some?
    ensures ReadU(data, off + 2 * Count(Present(writes, n)[..slot]), 2) == Some(Rel(writes, n, IndexOf(writes, slot)) % U16)
  {
    hide PresentFrom, Lookup, IndexOf, Rel, Fields, At;
    var present := Present(writes, n);
    var slots := PresentFrom(present, 0);
    RankIsIndex(present, 0, slot);
    assert present[0..slot] == present[..slot];
    var i := Count(present[..slot]);
    FieldAt(data, off, Table(writes, n, slots), 2, i);
    Pow256Values();
    AtLe(data, off + 2 * i, Rel(writes, n, IndexOf(writes, slot)), 2);
  }

  /**
   Resolving a slot of a written object gives the offset of the slot's value, modulo the table's two bytes,
   and nothing for a slot that was not written.
   */
  lemma {:induction false} ResolvesWritten(data: Bytes, obj: nat, writes: seq<Write>, n: nat, slot: nat)
    requires Writable(writes, n) && At(data, obj, Object(writes, n)) && slot < n
    ensures ResolveSlot(data, obj, slot) ==
            if Lookup(writes, slot).None? then None
            else Some(obj + Rel(writes, n, IndexOf(writes, slot)) % U16)
  {
    hide MaskBytes, SlotBit, MaskEnd, Rank, Lookup, IndexOf, Rel, TableBytes, At, Object, ReadU, Writable, Present,
         Count, ResolveFrom;
    var present := Present(writes, n);
    ObjectParts(data, obj, writes, n);
    SlotBitOfMask(data, obj + 8, present, slot);
    MaskEndOfMask(data, obj + 8, present);
    RankOfMask(data, obj + 8, present, slot);
    if Lookup(writes, slot).Some? {
      EntryOf(data, obj + 8 + MaskLen(n), writes, n, slot);
      ResolvesTo(data, obj, obj + 8, slot, obj + 8 + MaskLen(n), Count(present[..slot]), Rel(writes, n, IndexOf(writes, slot)) % U16);
    } else {
      AbsentResolves(data, obj, obj + 8, slot);
    }
  }

  lemma {:induction false} ValueAt(data: Bytes, obj: nat, writes: seq<Write>, n: nat, k: nat)
    requires At(data, obj, Object(writes, n)) && k < |writes|
    ensures At(data, obj + Rel(writes, n, k), ValueBytes(writes[k].cell))
  {
    hide Object, At, ValueStart, ValueBytes, Values;
    ObjectParts(data, obj, writes, n);
    ValuesStep(writes, k);
    ValuesPrefix(writes, k + 1);
    AtSlice(data, obj + ValueStart(n), Values(writes), 0, |Values(writes[..k + 1])|);
    assert Values(writes)[0..|Values(writes[..k + 1])|] == Values(writes[..k + 1]);
    AtConcat(data, obj + ValueStart(n), Values(writes[..k]), ValueBytes(writes[k].cell));
  }

  /** A slot resolves to its value exactly when the value starts within the table's reach. */
  lemma {:induction false} ResolvesIff(data: Bytes, obj: nat, writes: seq<Write>, n: nat, slot: nat)
    requires Writable(writes, n) && At(data, obj, Object(writes, n)) && slot < n && Lookup(writes, slot).Some?
    ensures var rel := Rel(writes, n, IndexOf(writes, slot));
            && (ResolveSlot(data, obj, slot) == Some(obj + rel) <==> rel < U16)
            && At(data, obj + rel, ValueBytes(Lookup(writes, slot).value))
  {
    hide Lookup, IndexOf, Object, At, ResolveSlot, Rel;
    var rel := Rel(writes, n, IndexOf(writes, slot));
    ResolvesWritten(data, obj, writes, n, slot);
    ModUnique(rel, U16, rel / U16, rel % U16);
    ValueAt(data, obj, writes, n, IndexOf(writes, slot));
  }

  // ── What the getters read ─────────────────────────────────────────────────

  /** `read_cell_at`, which the typed getters of a v1.2 row reader agree with. */
  function ReadValue(data: Bytes, off: nat, sigil: Byte): Option<Cell>
  {
    Pow256Values();
    if sigil == SIGIL_INT || sigil == SIGIL_TIME then
      var raw :- Get(data, off, 8);
      Some(if sigil == SIGIL_INT then I64(ReadI64(raw)) else Time(ReadI64(raw)))
    else if sigil == SIGIL_FLOAT then
      var raw :- Get(data, off, 8);
      Some(F64(ReadLe(raw)))
    else if sigil == SIGIL_BOOL then
      if off < |data| then Some(Bool(data[off] != 0)) else None
    else if sigil == SIGIL_NULL then Some(Null)
    else if sigil == SIGIL_STR || sigil == SIGIL_BINARY then
      var len :- ReadU(data, off, 4);
      var s :- Get(data, off + 4, len);
      Some(if sigil == SIGIL_STR then Str(s) else Binary(s))
    else None
  }

  function RowCell(data: Bytes, obj: nat, slot: nat, sigil: Byte): Option<Cell>
  {
    var off :- ResolveSlot(data, obj, slot);
    ReadValue(data, off, sigil)
  }

  /** The cell is a value of its column's type, short enough for its length field. */
  predicate ValueTyped(c: Cell, sigil: Byte)
  {
    match c
    case Absent => false
    case Null => sigil == SIGIL_NULL
    case Binary(raw) => sigil == SIGIL_BINARY && |raw| < U32
    case I64(_) => sigil == SIGIL_INT
    case F64(_) => sigil == SIGIL_FLOAT
    case Bool(_) => sigil == SIGIL_BOOL
    case Time(_) => sigil == SIGIL_TIME
    case Str(s) => sigil == SIGIL_STR && |s| < U32
  }

  lemma {:induction false} ValueReads(data: Bytes, off: nat, c: Cell, sigil: Byte)
    requires ValueTyped(c, sigil) && At(data, off, ValueBytes(c))
    ensures ReadValue(data, off, sigil) == Some(c)
  {
    hide Le, ReadI64, ReadLe;
    Pow256Values();
    match c
    case I64(v) => I64RoundTrip(v); AtGet(data, off, Le64(v));
    case Time(v) => I64RoundTrip(v); AtGet(data, off, Le64(v));
    case F64(bits) => LeRoundTrip(bits, 8); AtGet(data, off, Le(bits, 8));
    case Bool(b) => AtHead(data, off, [if b then 1 else 0], Zeros(7));
    case Str(s) => TextReads(data, off, s);
    case Binary(raw) => TextReads(data, off, raw);
    case Null =>
  }

  lemma {:induction false} TextReads(data: Bytes, off: nat, s: Bytes)
    requires |s| < U32 && At(data, off, CompactCells.StrCell(s, 4))
    ensures ReadU(data, off, 4) == Some(|s|) && Get(data, off + 4, |s|) == Some(s)
  {
    var len, pad := Le(|s|, 4), Zeros((8 - (4 + |s|) % 8) % 8);
    AtConcat(data, off, len + s, pad);
    AtConcat(data, off, len, s);
    Pow256Values();
    AtLe(data, off, |s|, 4);
  }

  /** Every value starts within the reach of the offset table's two bytes. */
  ghost predicate InReach(writes: seq<Write>, n: nat)
  {
    forall k :: 0 <= k < |writes| ==> Rel(writes, n, k) < U16
  }

  /** Every slot of a written object reads back the cell written to it, and nothing if none was. */
  lemma {:induction false} RowRoundTrip(data: Bytes, obj: nat, writes: seq<Write>, n: nat, slot: nat, sigil: Byte)
    requires Writable(writes, n) && InReach(writes, n) && At(data, obj, Object(writes, n)) && slot < n
    requires Lookup(writes, slot).Some? ==> ValueTyped(Lookup(writes, slot).value, sigil)
    ensures RowCell(data, obj, slot, sigil) == Lookup(writes, slot)
  {
    hide Lookup, IndexOf, Object, At, ResolveSlot, Rel, ValueBytes, ReadValue;
    ResolvesWritten(data, obj, writes, n, slot);
    if Lookup(writes, slot).Some? {
      ResolvesIff(data, obj, writes, n, slot);
      ValueReads(data, obj + Rel(writes, n, IndexOf(writes, slot)), Lookup(writes, slot).value, sigil);
    }
  }

  // ── Write order does not matter ───────────────────────────────────────────

  lemma {:induction false} LookupPermutes(a: seq<Write>, b: seq<Write>, n: nat, slot: nat)
    requires Writable(a, n) && Writable(b, n) && multiset(a) == multiset(b)
    ensures Lookup(a, slot) == Lookup(b, slot)
  {
    if Lookup(a, slot).Some? {
      LookupInto(a, b, n, slot);
    } else if Lookup(b, slot).Some? {
      LookupInto(b, a, n, slot);
    }
  }

  lemma {:induction false} LookupInto(a: seq<Write>, b: seq<Write>, n: nat, slot: nat)
    requires Writable(b, n) && multiset(a) == multiset(b) && Lookup(a, slot).Some?
    ensures Lookup(b, slot) == Lookup(a, slot)
  {
    var w := a[IndexOf(a, slot)];
    assert w in multiset(b);
    var k :| 0 <= k < |b| && b[k] == w;
    LookupAt(b, n, k);
  }

  /** Two objects of the same writes, in any two orders, give the same cell for every slot. */
  lemma {:induction false} OrderDoesNotMatter(data: Bytes, obj: nat, a: seq<Write>, data': Bytes, obj': nat,
      b: seq<Write>, n: nat, slot: nat, sigil: Byte)
    requires Writable(a, n) && Writable(b, n) && multiset(a) == multiset(b) && InReach(a, n) && InReach(b, n)
    requires At(data, obj, Object(a, n)) && At(data', obj', Object(b, n)) && slot < n
    requires Lookup(a, slot).Some? ==> ValueTyped(Lookup(a, slot).value, sigil)
    ensures RowCell(data, obj, slot, sigil) == RowCell(data', obj', slot, sigil) == Lookup(a, slot)
  {
    hide Object, InReach, RowCell, Writable;
    LookupPermutes(a, b, n, slot);
    RowRoundTrip(data, obj, a, n, slot, sigil);
    RowRoundTrip(data', obj', b, n, slot, sigil);
  }
}
