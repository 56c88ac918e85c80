/** The readers' alignment arithmetic, `(pos + a - 1) & !(a - 1)`, against the writers' padding loops. */
module Align {
  import opened Bytes

  /** `x & !m` */
  function AndNot(x: nat, m: nat): (r: nat)
    ensures r <= x
  {
    if x == 0 then 0 else Kept(x, m) + 2 * AndNot(x / 2, m / 2)
  }

  /** The lowest bit of `x & !m` */
  function Kept(x: nat, m: nat): nat { if x % 2 == 1 && m % 2 == 0 then 1 else 0 }

  /** `align_to` */
  function AlignTo(pos: nat, align: nat): (r: nat)
  {
    if align == 0 then pos else AndNot(pos + align - 1, align - 1)
  }

  predicate PowerOfTwo(a: nat)
  {
    if a <= 1 then a == 1 else a % 2 == 0 && PowerOfTwo(a / 2)
  }

  lemma {:induction false} AndNotPower(q: nat, r: nat, p: nat)
    requires PowerOfTwo(p) && r < p
    ensures AndNot(p * q + r, p - 1) == p * q
  {
    if p == 1 {
      AndNotZero(q);
    } else {
      hide AndNot;
      TwiceTimes(p, p / 2, q);
      AndNotPower(q, r / 2, p / 2);
      PowerStep(p / 2 * q, r, p / 2);
    }
  }

  lemma {:induction false} PowerStep(x: nat, r: nat, h: nat)
    requires h >= 1 && r < 2 * h && AndNot(x + r / 2, h - 1) == x
    ensures AndNot(2 * x + r, 2 * h - 1) == 2 * x
  {
    hide AndNot;
    AndNotHalves(2 * x + r, 2 * h - 1, x + r / 2);
  }

  lemma {:induction false} TwiceTimes(p: nat, h: nat, q: nat)
    requires p == 2 * h
    ensures p * q == 2 * (h * q)
  {
  }

  lemma {:induction false} AndNotZero(x: nat)
    ensures AndNot(x, 0) == x
  {
    if x > 0 { AndNotZero(x / 2); }
  }

  /** For a power of two, the reader's formula stops where the writer's padding loop stops. */
  lemma {:induction false} AlignsAtPowers(pos: nat, a: nat)
    requires PowerOfTwo(a)
    ensures AlignTo(pos, a) == RoundUp(pos, a)
  {
    var x := pos + a - 1;
    var q, r := x / a, x % a;
    assert x == a * q + r;
    AndNotPower(q, r, a);
    ModUnique(a * q, a, q, 0);
    RoundUpUnique(pos, a, a * q);
  }

  lemma {:induction false} LowestBit(a: nat)
    requires a >= 1
    ensures AndNot(a, a - 1) == a <==> PowerOfTwo(a)
    ensures AndNot(a, a - 1) >= 1
  {
    if a % 2 == 1 {
      assert (a - 1) / 2 == a / 2;
      AndNotSelf(a / 2);
    } else {
      assert (a - 1) / 2 == a / 2 - 1;
      LowestBit(a / 2);
    }
  }

  lemma {:induction false} AndNotSelf(x: nat)
    ensures AndNot(x, x) == 0
  {
    if x > 0 { AndNotSelf(x / 2); }
  }

  /** The two agree at every position exactly when the alignment is a power of two. */
  lemma {:induction false} AlignToAgreesIffPower(a: nat)
    requires a >= 1
    ensures (forall pos: nat :: AlignTo(pos, a) == RoundUp(pos, a)) <==> PowerOfTwo(a)
  {
    if PowerOfTwo(a) {
      forall pos: nat
        ensures AlignTo(pos, a) == RoundUp(pos, a)
      {
        AlignsAtPowers(pos, a);
      }
    } else {
      LowestBit(a);
      ModUnique(a, a, 1, 0);
      RoundUpUnique(1, a, a);
      assert AlignTo(1, a) == AndNot(a, a - 1) != RoundUp(1, a);
    }
  }

  lemma {:induction false} SmallPowers()
    ensures PowerOfTwo(1) && PowerOfTwo(2) && PowerOfTwo(4) && PowerOfTwo(8)
    ensures !PowerOfTwo(3) && !PowerOfTwo(5) && !PowerOfTwo(6) && !PowerOfTwo(7)
  {
  }

  lemma {:induction false} AndNotShift(q: nat, y: nat, m: nat, p: nat)
    requires PowerOfTwo(p) && m < p
    ensures AndNot(p * q + y, m) == p * q + AndNot(y, m)
  {
    if p == 1 {
      AndNotZero(q + y);
      AndNotZero(y);
    } else {
      hide AndNot;
      var h := p / 2;
      var x := h * q;
      TwiceTimes(p, h, q);
      AndNotShift(q, y / 2, m / 2, h);
      AndNotHalves(2 * x + y, m, x + y / 2);
      AndNotHalves(y, m, y / 2);
    }
  }

  lemma {:induction false} AndNotHalves(x: nat, m: nat, x': nat)
    requires x / 2 == x'
    ensures AndNot(x, m) == Kept(x, m) + 2 * AndNot(x', m / 2)
  {
  }

  /** What the formula adds at a position depends on the position modulo 8 only. */
  lemma {:induction false} AlignToShift(pos: nat, a: nat)
    requires 1 <= a <= 8
    ensures AlignTo(pos, a) - pos == AlignTo(pos % 8, a) - pos % 8
  {
    hide AlignTo;
    ShiftedAlign(pos / 8, pos % 8, a);
  }

  lemma {:induction false} ShiftedAlign(q: nat, d: nat, a: nat)
    requires 1 <= a <= 8
    ensures AlignTo(8 * q + d, a) == 8 * q + AlignTo(d, a)
  {
    SmallPowers();
    hide AndNot, PowerOfTwo;
    AndNotShift(q, d + a - 1, a - 1, 8);
  }

  /** The sizes of a shared word that are not powers of two, and the positions where the two agree all the same. */
  predicate AgreesAt(pos: nat, a: nat)
  {
    a == 0 || RemaindersAgree(pos % 8, pos % a, a)
  }

  /** The same, of a position that leaves `d` modulo 8 and `r` modulo `a`. */
  predicate RemaindersAgree(d: nat, r: nat, a: nat)
  {
    if a == 3 then (if d % 4 < 2 then r == 0 else r == 1)
    else if a == 5 then (if d < 4 then r == 0 else r == 1)
    else if a == 6 then (if d == 0 || d == 2 then r == 0 else if d == 1 || d == 7 then r == 5
                         else if d == 3 || d == 5 then r == 1 else r == 2)
    else if a == 7 then (if d < 2 then r == 0 else if d < 4 then r == 1 else if d < 6 then r == 3 else r == 5)
    else true
  }

  /** What the formula adds at a position of remainder `d` modulo 8. */
  function Added(d: nat, a: nat): nat
    requires d < 8
  {
    if a == 3 then (if d % 4 < 2 then 0 else 2)
    else if a == 5 then (if d < 4 then 0 else 4)
    else if a == 6 then [0, 1, 0, 5, 4, 5, 4, 1][d]
    else [0, 0, 6, 6, 4, 4, 2, 2][d]
  }

  /** For every size of a shared word, the two agree at a position exactly as its remainders say. */
  lemma {:induction false} AgreesExactly(pos: nat, a: nat)
    requires 1 <= a <= 8
    ensures AlignTo(pos, a) == RoundUp(pos, a) <==> AgreesAt(pos, a)
  {
    SmallPowers();
    if PowerOfTwo(a) {
      AlignsAtPowers(pos, a);
    } else {
      hide AlignTo, PowerOfTwo, Added, RemaindersAgree;
      AlignToShift(pos, a);
      AddedIs(pos % 8, a);
      SumsAgree(pos % 8, pos % a, a);
    }
  }

  lemma {:induction false} SumsAgree(d: nat, r: nat, a: nat)
    requires d < 8 && r < a && (a == 3 || a == 5 || a == 6 || a == 7)
    ensures (a - r) % a == Added(d, a) <==> RemaindersAgree(d, r, a)
  {
    PaddingIs(r, a, Added(d, a));
  }

  lemma {:induction false} PaddingIs(r: nat, a: nat, s: nat)
    requires r < a && s < a
    ensures (a - r) % a == s <==> r == if s == 0 then 0 else a - s
  {
    if r == 0 { ModUnique(a, a, 1, 0); } else { ModUnique(a - r, a, 0, a - r); }
  }

  lemma {:induction false} AddedIs(d: nat, a: nat)
    requires d < 8 && (a == 3 || a == 5 || a == 6 || a == 7)
    ensures AlignTo(d, a) == d + Added(d, a)
  {
    hide AlignTo, Added;
    if a == 3 { AddedThree(d); } else if a == 5 { AddedFive(d); } else if a == 6 { AddedSix(d); } else { AddedSeven(d); }
  }

  lemma {:induction false} AddedThree(d: nat)
    requires d < 8
    ensures AlignTo(d, 3) == d + Added(d, 3)
  {
    hide AndNot;
    FourBits(d + 2, 2);
  }

  lemma {:induction false} AddedFive(d: nat)
    requires d < 8
    ensures AlignTo(d, 5) == d + Added(d, 5)
  {
    hide AndNot;
    FourBits(d + 4, 4);
  }

  lemma {:induction false} AddedSix(d: nat)
    requires d < 8
    ensures AlignTo(d, 6) == d + Added(d, 6)
  {
    hide AndNot;
    FourBits(d + 5, 5);
  }

  lemma {:induction false} AddedSeven(d: nat)
    requires d < 8
    ensures AlignTo(d, 7) == d + Added(d, 7)
  {
    hide AndNot;
    FourBits(d + 6, 6);
  }

  lemma {:induction false} FourBits(x: nat, m: nat)
    requires x < 16
    ensures var x1, m1 := x / 2, m / 2;
            var x2, m2 := x1 / 2, m1 / 2;
            var x3, m3 := x2 / 2, m2 / 2;
            AndNot(x, m) == Kept(x, m) + 2 * Kept(x1, m1) + 4 * Kept(x2, m2) + 8 * Kept(x3, m3)
  {
    hide AndNot;
    var x1, m1 := x / 2, m / 2;
    var x2, m2 := x1 / 2, m1 / 2;
    var x3, m3 := x2 / 2, m2 / 2;
    AndNotHalves(x, m, x1);
    AndNotHalves(x1, m1, x2);
    AndNotHalves(x2, m2, x3);
    AndNotHalves(x3, m3, 0);
    AndNotNothing(m3 / 2);
  }

  lemma {:induction false} AndNotNothing(m: nat)
    ensures AndNot(0, m) == 0
  {
  }

}
