/**
 The presence bitmask of an object: seven slots a byte, with the high bit of a byte set when another
 byte follows (the grouping of LEB128, section 7.6 of DWARF 5).

 `MaskBytes` is what the writers emit. `SlotBit`, `MaskEnd` and `Rank` are what the readers recompute
 from raw bytes, without knowing how many slots the writer had.
 */
module Bitmask {
  import opened Bytes

  /** `build_bitmask_bytes`, seven slots at a time. */
  function MaskBytes(present: seq<bool>): (m: Bytes)
    ensures |m| == MaskLen(|present|)
    decreases |present|
  {
    if |present| <= 7 then MaskLast(present) else MaskMore(present[..7]) + MaskBytes(present[7..])
  }

  function MaskLast(bits: seq<bool>): (m: Bytes)
    requires |bits| <= 7
    ensures |m| == 1 && m[0] == BitsValue(bits) && m[0] < 128
  {
    Pow2Seven(|bits|);
    [BitsValue(bits)]
  }

  function MaskMore(bits: seq<bool>): (m: Bytes)
    requires |bits| == 7
    ensures |m| == 1 && m[0] == 128 + BitsValue(bits)
  {
    Pow2Seven(7);
    [128 + BitsValue(bits)]
  }

  lemma {:induction false} Pow2Seven(n: nat)
    requires n <= 7
    ensures Pow2(n) <= 128 && Pow2(7) == 128
  {
    assert Pow2(7) == 2 * Pow2(6) == 4 * Pow2(5) == 8 * Pow2(4);
    if n < 7 {
      Pow2Mono(n, 7);
    }
  }

  lemma {:induction false} Pow2Mono(m: nat, n: nat)
    requires m <= n
    ensures Pow2(m) <= Pow2(n)
    decreases n - m
  {
    if m < n { Pow2Mono(m, n - 1); }
  }

  function MaskLen(n: nat): (len: nat)
    ensures len >= 1
  {
    if n <= 7 then 1 else 1 + MaskLen(n - 7)
  }

  /** `(n + 6) / 7`, and at least one byte (`Schema::new`). */
  lemma {:induction false} MaskLenIs(n: nat)
    ensures MaskLen(n) == if n == 0 then 1 else (n + 6) / 7
  {
    if n > 7 { MaskLenIs(n - 7); }
  }

  /** `b & 0x80 != 0`: another mask byte follows. */
  predicate More(b: Byte) { b >= 128 }

  lemma {:induction false} Continues(bits: seq<bool>)
    requires |bits| == 7
    ensures More(MaskMore(bits)[0]) && HoldsBits(MaskMore(bits)[0], bits)
  {
    Pow2Seven(7);
    assert MaskMore(bits)[0] == BitsValue(bits + [true]) by { BitsAppend(bits); }
    forall i | 0 <= i < 7
      ensures Bit(MaskMore(bits)[0], i) == bits[i]
    {
      BitOfBits(bits + [true], i);
    }
  }

  lemma {:induction false} BitsAppend(bits: seq<bool>)
    ensures BitsValue(bits + [true]) == BitsValue(bits) + Pow2(|bits|)
  {
    if |bits| > 0 {
      assert (bits + [true])[1..] == bits[1..] + [true];
      BitsAppend(bits[1..]);
    }
  }

  lemma {:induction false} Stops(bits: seq<bool>)
    requires |bits| <= 7
    ensures !More(MaskLast(bits)[0]) && HoldsBits(MaskLast(bits)[0], bits)
  {
    forall i | 0 <= i < 7
      ensures Bit(MaskLast(bits)[0], i) == (i < |bits| && bits[i])
    {
      BitOfBits(bits, i);
    }
  }

  // ── What a reader recomputes from `data`, the mask starting at `p` ────────

  /** The bit of slot `i`; `None` when the mask, or the data, ends first. */
  function SlotBit(data: Bytes, p: nat, i: nat): (b: Option<bool>)
    decreases i
  {
    if p >= |data| then None
    else if i < 7 then Some(Bit(data[p], i))
    else if More(data[p]) then SlotBit(data, p + 1, i - 7)
    else None
  }

  /** The position after the first byte that does not continue. */
  function MaskEnd(data: Bytes, p: nat): (e: Option<nat>)
    ensures e.Some? ==> p < e.value <= |data|
    decreases |data| - p
  {
    if p >= |data| then None
    else if More(data[p]) then MaskEnd(data, p + 1)
    else Some(p + 1)
  }

  function LowBits(b: Byte, i: nat): (n: nat)
    ensures n <= i
  {
    if i == 0 then 0 else LowBits(b, i - 1) + (if Bit(b, i - 1) then 1 else 0)
  }

  /** How many slots below `i` have their bit set. */
  function Rank(data: Bytes, p: nat, i: nat): (n: nat)
    ensures n <= i
    decreases i
  {
    if p >= |data| then 0
    else if i < 7 then LowBits(data[p], i)
    else LowBits(data[p], 7) + Rank(data, p + 1, i - 7)
  }

  // ── The readers against the writer ────────────────────────────────────────

  function Count(present: seq<bool>): (n: nat)
    ensures n <= |present|
  {
    if |present| == 0 then 0 else (if present[|present| - 1] then 1 else 0) + Count(present[..|present| - 1])
  }

  lemma {:induction false} CountConcat(a: seq<bool>, b: seq<bool>)
    ensures Count(a + b) == Count(a) + Count(b)
  {
    if |b| == 0 {
      assert a + b == a;
    } else {
      assert (a + b)[..|a + b| - 1] == a + b[..|b| - 1];
      CountConcat(a, b[..|b| - 1]);
    }
  }

  lemma {:induction false} LowBitsOf(b: Byte, bits: seq<bool>, i: nat)
    requires i <= |bits|
    requires forall k :: 0 <= k < i ==> Bit(b, k) == bits[k]
    ensures LowBits(b, i) == Count(bits[..i])
  {
    if i > 0 {
      LowBitsOf(b, bits, i - 1);
      assert bits[..i][..i - 1] == bits[..i - 1];
    }
  }

  /**
   Every bit a reader finds is the writer's presence flag, and slots past the schema read as absent
   (in the last byte's padding) or as past the end of the mask.
   */
  lemma {:induction false} SlotBitOfMask(data: Bytes, p: nat, present: seq<bool>, i: nat)
    requires At(data, p, MaskBytes(present))
    ensures i < |present| ==> SlotBit(data, p, i) == Some(present[i])
    ensures |present| <= i < 7 * MaskLen(|present|) ==> SlotBit(data, p, i) == Some(false)
    ensures 7 * MaskLen(|present|) <= i ==> SlotBit(data, p, i) == None
    decreases |present|
  {
    MaskHead(data, p, present);
    if |present| > 7 && i >= 7 {
      SlotBitOfMask(data, p + 1, present[7..], i - 7);
    }
  }

  /** The seven low bits of `b` are `bits`, missing flags reading as clear. */
  ghost predicate HoldsBits(b: Byte, bits: seq<bool>)
  {
    forall i :: 0 <= i < 7 ==> Bit(b, i) == (i < |bits| && bits[i])
  }

  function Head(present: seq<bool>): (bits: seq<bool>)
  {
    if |present| > 7 then present[..7] else present
  }

  /** The first byte of the mask, and the rest of it. */
  lemma {:induction false} MaskHead(data: Bytes, p: nat, present: seq<bool>)
    requires At(data, p, MaskBytes(present))
    ensures p < |data| && HoldsBits(data[p], Head(present))
    ensures More(data[p]) == (|present| > 7)
    ensures |present| > 7 ==> At(data, p + 1, MaskBytes(present[7..]))
  {
    var head := if |present| > 7 then MaskMore(present[..7]) else MaskLast(present);
    var rest := if |present| > 7 then MaskBytes(present[7..]) else [];
    assert MaskBytes(present) == head + rest;
    AtHead(data, p, head, rest);
    if |present| > 7 {
      Continues(present[..7]);
    } else {
      Stops(present);
    }
  }

  lemma {:induction false} MaskEndOfMask(data: Bytes, p: nat, present: seq<bool>)
    requires At(data, p, MaskBytes(present))
    ensures MaskEnd(data, p) == Some(p + MaskLen(|present|))
    decreases |present|
  {
    MaskHead(data, p, present);
    if |present| > 7 { MaskEndOfMask(data, p + 1, present[7..]); }
  }

  /** A reader's rank of a slot is the number of present slots before it. */
  lemma {:induction false} RankOfMask(data: Bytes, p: nat, present: seq<bool>, i: nat)
    requires At(data, p, MaskBytes(present)) && i <= |present|
    ensures Rank(data, p, i) == Count(present[..i])
    decreases |present|
  {
    MaskHead(data, p, present);
    if i < 7 {
      LowBitsOf(data[p], present, i);
    } else if |present| > 7 {
      LowBitsOf(data[p], present, 7);
      RankOfMask(data, p + 1, present[7..], i - 7);
      assert present[..i] == present[..7] + present[7..][..i - 7];
      CountConcat(present[..7], present[7..][..i - 7]);
    } else {
      assert i == 7;
      LowBitsOf(data[p], present, 7);
    }
  }

  // ── The present slots ─────────────────────────────────────────────────────

  /** The present slots from `i` on, in ascending order. */
  function PresentFrom(present: seq<bool>, i: nat): (slots: seq<nat>)
    requires i <= |present|
    ensures forall s :: s in slots <==> i <= s < |present| && present[s]
    decreases |present| - i
  {
    if i == |present| then []
    else if present[i] then [i] + PresentFrom(present, i + 1)
    else PresentFrom(present, i + 1)
  }

  lemma {:induction false} PresentAreFew(present: seq<bool>, i: nat)
    requires i <= |present|
    ensures |PresentFrom(present, i)| <= |present| - i
    decreases |present| - i
  {
    if i < |present| { PresentAreFew(present, i + 1); }
  }

  lemma {:induction false} PresentAscends(present: seq<bool>, i: nat)
    requires i <= |present|
    ensures forall j, k :: 0 <= j < k < |PresentFrom(present, i)| ==> PresentFrom(present, i)[j] < PresentFrom(present, i)[k]
    decreases |present| - i
  {
    if i < |present| {
      PresentAscends(present, i + 1);
      var rest := PresentFrom(present, i + 1);
      assert forall k :: 0 <= k < |rest| ==> rest[k] in rest;
    }
  }

  /** The rank of a present slot is its index among the present slots. */
  lemma {:induction false} RankIsIndex(present: seq<bool>, i: nat, s: nat)
    requires i <= s < |present| && present[s]
    ensures Count(present[i..s]) < |PresentFrom(present, i)|
    ensures PresentFrom(present, i)[Count(present[i..s])] == s
    decreases |present| - i
  {
    if i < s {
      RankIsIndex(present, i + 1, s);
      assert present[i..s] == [present[i]] + present[i + 1..s];
      CountConcat([present[i]], present[i + 1..s]);
      assert Count([present[i]]) == if present[i] then 1 else 0 by { assert [present[i]][..0] == []; }
    } else {
      assert present[i..s] == [];
    }
  }

  // ── Building the mask bit by bit ──────────────────────────────────────────

  function AllFalse(n: nat): (s: seq<bool>)
    ensures |s| == n && forall i :: 0 <= i < n ==> !s[i]
  {
    seq(n, i => false)
  }

  /** Setting one bit in the bytes is setting one presence flag (`mark_slot`). */
  lemma {:induction false} SetSlot(present: seq<bool>, s: nat)
    requires s < |present|
    ensures s / 7 < MaskLen(|present|)
    ensures SetBit(MaskBytes(present)[s / 7], s % 7) < 256
    ensures MaskBytes(present)[s / 7 := SetBit(MaskBytes(present)[s / 7], s % 7)] == MaskBytes(present[s := true])
    decreases |present|
  {
    hide SetBit, MaskBytes, MaskMore, MaskLast, MaskLen;
    var after := present[s := true];
    MaskSplit(present);
    MaskSplit(after);
    if |present| <= 7 {
      SetSlotLast(present, s);
    } else if s < 7 {
      SetSlotFirst(present, s);
    } else {
      SetSlot(present[7..], s - 7);
      assert after[..7] == present[..7] && after[7..] == present[7..][s - 7 := true];
      assert (s - 7) / 7 == s / 7 - 1 && (s - 7) % 7 == s % 7;
      SetInTail(MaskMore(present[..7]), MaskBytes(present[7..]), s / 7, s % 7);
    }
  }

  lemma {:induction false} MaskSplit(present: seq<bool>)
    ensures |present| <= 7 ==> MaskBytes(present) == MaskLast(present) && MaskLen(|present|) == 1
    ensures |present| > 7 ==> MaskBytes(present) == MaskMore(present[..7]) + MaskBytes(present[7..]) && MaskLen(|present|) == 1 + MaskLen(|present| - 7)
  {
  }

  lemma {:induction false} SetSlotFirst(present: seq<bool>, s: nat)
    requires s < 7 < |present|
    ensures s / 7 == 0 && s % 7 == s && SetBit(MaskBytes(present)[0], s) < 256
    ensures MaskBytes(present)[0 := SetBit(MaskBytes(present)[0], s)] == MaskBytes(present[s := true])
  {
    hide SetBit, MaskBytes, MaskLen, BitsValue;
    var after := present[s := true];
    MaskSplit(present);
    MaskSplit(after);
    assert after[..7] == present[..7][s := true] && after[7..] == present[7..];
    SetInMore(present[..7], s);
    assert MaskBytes(present)[0] == MaskMore(present[..7])[0];
    assert MaskBytes(after) == MaskMore(after[..7]) + MaskBytes(present[7..]);
  }

  lemma {:induction false} SetInTail(head: Bytes, tail: Bytes, k: nat, bit: nat)
    requires |head| == 1 && 1 <= k <= |tail| && SetBit(tail[k - 1], bit) < 256
    ensures (head + tail)[k] == tail[k - 1]
    ensures (head + tail)[k := SetBit(tail[k - 1], bit)] == head + tail[k - 1 := SetBit(tail[k - 1], bit)]
  {
  }

  lemma {:induction false} SetSlotLast(present: seq<bool>, s: nat)
    requires s < |present| <= 7
    ensures s / 7 == 0 && s % 7 == s
    ensures SetBit(MaskLast(present)[0], s) < 256
    ensures MaskLast(present)[0 := SetBit(MaskLast(present)[0], s)] == MaskLast(present[s := true])
  {
    SetInBits(present, s);
    Pow2Seven(|present|);
  }

  lemma {:induction false} SetInBits(bits: seq<bool>, s: nat)
    requires s < |bits|
    ensures SetBit(BitsValue(bits), s) == BitsValue(bits[s := true])
  {
    hide SetBit, Bit, Pow2;
    var d, v := if bits[0] then 1 else 0, BitsValue(bits[1..]);
    if s > 0 {
      assert bits[s := true][1..] == bits[1..][s - 1 := true];
      SetInBits(bits[1..], s - 1);
      SetHigher(d, v, s);
    } else {
      assert bits[0 := true][1..] == bits[1..];
      SetLowest(d, v);
    }
  }

  lemma {:induction false} SetLowest(d: nat, v: nat)
    requires d <= 1
    ensures SetBit(d + 2 * v, 0) == 1 + 2 * v
  {
  }

  lemma {:induction false} SetHigher(d: nat, v: nat, s: nat)
    requires d <= 1 && s > 0
    ensures SetBit(d + 2 * v, s) == d + 2 * SetBit(v, s - 1)
  {
  }

  lemma {:induction false} SetInMore(bits: seq<bool>, s: nat)
    requires |bits| == 7 && s < 7
    ensures SetBit(128 + BitsValue(bits), s) == 128 + BitsValue(bits[s := true])
  {
    hide SetBit, BitsValue, Pow2;
    Pow2Seven(7);
    BitsAppend(bits);
    BitsAppend(bits[s := true]);
    SetInBits(bits + [true], s);
    assert (bits + [true])[s := true] == bits[s := true] + [true];
  }

  /** The mask a new object starts with: zero bytes, all but the last continuing. */
  function EmptyMask(n: nat): (m: Bytes)
    ensures |m| == MaskLen(n)
  {
    seq(MaskLen(n), i => if i + 1 < MaskLen(n) then 128 else 0)
  }

  lemma {:induction false} EmptyMaskIsMask(n: nat)
    ensures EmptyMask(n) == MaskBytes(AllFalse(n))
    decreases n
  {
    if n <= 7 {
      BitsAllFalse(n);
    } else {
      BitsAllFalse(7);
      assert AllFalse(n)[..7] == AllFalse(7) && AllFalse(n)[7..] == AllFalse(n - 7);
      EmptyMaskIsMask(n - 7);
      assert EmptyMask(n) == [128] + EmptyMask(n - 7);
    }
  }

  lemma {:induction false} BitsAllFalse(n: nat)
    ensures BitsValue(AllFalse(n)) == 0
  {
    if n > 0 {
      assert AllFalse(n)[1..] == AllFalse(n - 1);
      BitsAllFalse(n - 1);
    }
  }

  /** `build_bitmask_bytes`: a byte for each seven flags, at least one byte. */
  method BuildBitmask(present: seq<bool>) returns (mask: Bytes)
    ensures mask == MaskBytes(present)
  {
    hide Pow2, MaskBytes, BitsValue;
    mask := [];
    var i := 0;
    assert present[0..] == present;
    MaskEmpty();
    while i < |present|
      invariant i < |present| ==> mask + MaskBytes(present[i..]) == MaskBytes(present)
      invariant i >= |present| > 0 ==> mask == MaskBytes(present)
      invariant (mask == [] <==> i == 0) && (present == [] ==> i == 0)
      decreases |present| - i
    {
      var byte := PackSeven(present, i);
      i := i + 7;
      var more := i < |present|;
      SevenBits(present, i - 7);
      if more {
        byte := byte + 128;
      }
      MaskStep(present, i - 7, mask, byte);
      mask := mask + [byte];
    }
    if |mask| == 0 {
      mask := [0];
    }
  }

  /** The inner loop: the flags `i`, …, `i + 6` of `present`, those past the end reading as clear. */
  method PackSeven(present: seq<bool>, i: nat) returns (byte: nat)
    requires i < |present|
    ensures byte == BitsValue(present[i..Min(i + 7, |present|)])
  {
    byte := 0;
    for bit := 0 to 7
      invariant byte == BitsValue(present[i..Min(i + bit, |present|)])
    {
      if i + bit < |present| {
        BitsSnoc(present[i..i + bit], present[i + bit]);
        assert present[i..i + bit + 1] == present[i..i + bit] + [present[i + bit]];
        if present[i + bit] {
          byte := byte + Pow2(bit);
        }
      }
    }
  }

  lemma {:induction false} MaskEmpty()
    ensures MaskBytes([]) == [0]
  {
    assert BitsValue([]) == 0;
  }

  lemma {:induction false} SevenBits(present: seq<bool>, i: nat)
    requires i < |present|
    ensures BitsValue(present[i..Min(i + 7, |present|)]) < 128
  {
    Pow2Seven(Min(7, |present| - i));
  }

  lemma {:induction false} MaskStep(present: seq<bool>, i: nat, mask: Bytes, byte: Byte)
    requires i < |present| && byte == BitsValue(present[i..Min(i + 7, |present|)]) + if i + 7 < |present| then 128 else 0
    ensures i + 7 < |present| ==> mask + [byte] + MaskBytes(present[i + 7..]) == mask + MaskBytes(present[i..])
    ensures i + 7 >= |present| ==> mask + [byte] == mask + MaskBytes(present[i..])
  {
    hide MaskBytes, BitsValue;
    var rest := present[i..];
    MaskSplit(rest);
    if i + 7 < |present| {
      assert rest[..7] == present[i..i + 7] && rest[7..] == present[i + 7..];
      assert MaskBytes(rest) == [byte] + MaskBytes(present[i + 7..]);
    } else {
      assert present[i..|present|] == rest;
    }
  }

  function Min(a: nat, b: nat): nat { if a < b then a else b }

  lemma {:induction false} BitsSnoc(bits: seq<bool>, b: bool)
    ensures BitsValue(bits + [b]) == BitsValue(bits) + (if b then Pow2(|bits|) else 0)
  {
    if |bits| > 0 {
      assert (bits + [b])[1..] == bits[1..] + [b];
      BitsSnoc(bits[1..], b);
    }
  }

  // ── The v1.2 slot resolver ────────────────────────────────────────────────

  /** The absolute offset that the offset table gives for `slot`, or `None` when the slot is absent. */
  function ResolveSlot(data: Bytes, obj: nat, slot: nat): (off: Option<nat>)
  {
    ResolveFrom(data, obj, obj + 8, slot)
  }

  /** The walk shared by every bitmask reader: the mask starts at `p`, offsets count from `obj`. */
  function ResolveFrom(data: Bytes, obj: nat, p: nat, slot: nat): (off: Option<nat>)
  {
    if SlotBit(data, p, slot) != Some(true) then None
    else
      var end :- MaskEnd(data, p);
      var rel :- ReadU(data, end + 2 * Rank(data, p, slot), 2);
      Some(obj + rel)
  }

  lemma {:induction false} ResolvesTo(data: Bytes, obj: nat, p: nat, slot: nat, end: nat, rank: nat, rel: nat)
    requires SlotBit(data, p, slot) == Some(true) && MaskEnd(data, p) == Some(end) && Rank(data, p, slot) == rank
    requires ReadU(data, end + 2 * rank, 2) == Some(rel)
    ensures ResolveFrom(data, obj, p, slot) == Some(obj + rel)
  {
    hide SlotBit, MaskEnd, Rank, ReadU;
  }

  lemma {:induction false} AbsentResolves(data: Bytes, obj: nat, p: nat, slot: nat)
    requires SlotBit(data, p, slot) != Some(true)
    ensures ResolveFrom(data, obj, p, slot) == None
  {
  }

  /** One mask byte of the walk: seven slots from `cur`, counting the present ones before `slot`. */
  method ScanByte(b: Byte, cur: nat, slot: nat) returns (found: bool, absent: bool, passed: nat)
    requires cur <= slot
    ensures found == (slot < cur + 7 && Bit(b, slot - cur))
    ensures absent == (slot < cur + 7 && !Bit(b, slot - cur))
    ensures !absent ==> passed == LowBits(b, if slot < cur + 7 then slot - cur else 7)
  {
    found, absent, passed := false, false, 0;
    for bit := 0 to 7
      invariant !absent
      invariant found == (slot < cur + bit && Bit(b, slot - cur))
      invariant slot < cur + bit ==> found
      invariant passed == LowBits(b, if slot < cur + bit then slot - cur else bit)
    {
      if cur + bit == slot {
        if !Bit(b, bit) {
          return false, true, passed;
        }
        found := true;
      } else if cur + bit < slot && Bit(b, bit) {
        passed := passed + 1;
      }
    }
  }

  /** `resolve_slot`: walk to the byte of `slot`, skip the bytes after it, read the offset table. */
  method ResolveSlotWalk(data: Bytes, obj: nat, slot: nat) returns (off: Option<nat>)
    ensures off == ResolveSlot(data, obj, slot)
  {
    hide Bit, LowBits, More;
    var p := obj + 8;
    var cur := 0;
    var tableIdx := 0;
    var b: Byte := 0;
    while true
      invariant cur <= slot
      invariant SlotBit(data, obj + 8, slot) == SlotBit(data, p, slot - cur)
      invariant Rank(data, obj + 8, slot) == tableIdx + Rank(data, p, slot - cur)
      invariant MaskEnd(data, obj + 8) == MaskEnd(data, p)
      decreases |data| - p
    {
      if p >= |data| { return None; }
      b := data[p];
      var found, absent, passed := ScanByte(b, cur, slot);
      if absent { return None; }
      tableIdx := tableIdx + passed;
      if found { break; }
      if !More(b) { return None; }
      p := p + 1;
      cur := cur + 7;
    }
    p := p + 1;
    while More(b)
      invariant if More(b) then MaskEnd(data, obj + 8) == MaskEnd(data, p) else MaskEnd(data, obj + 8) == Some(p)
      decreases |data| - p, More(b)
    {
      if p >= |data| { return None; }
      b := data[p];
      p := p + 1;
    }
    var rel := ReadU(data, p + tableIdx * 2, 2);
    if rel.None? { return None; }
    off := Some(obj + rel.value);
  }
}
