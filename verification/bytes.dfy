/**
 Byte sequences, little-endian integers and the bits of a byte.

 A byte is an integer in `0..256`; a fixed-width integer field is `Le(v, n)`, which keeps the low
 `n` bytes of `v` and so truncates exactly as the source's `as u16` and `as u32` casts do.
 */
module Bytes {

  type Byte = b: int | 0 <= b < 256
  type Bytes = seq<Byte>

  const U16: nat := 0x1_0000
  const U32: nat := 0x1_0000_0000
  const U64: nat := 0x1_0000_0000_0000_0000

  datatype Option<+T> = None | Some(value: T) {
    predicate IsFailure() { None? }
    function PropagateFailure<U>(): Option<U> requires None? { None }
    function Extract(): T requires Some? { value }
    /** `unwrap_or` */
    function UnwrapOr(default_: T): T { if Some? then value else default_ }
  }

  /** The source's `NxsError` variants; `Panic` stands for a slice, index or `expect` panic. */
  datatype Error = OutOfBounds | BadMagic | Overflow | ValueOutOfRange | DictMismatch | ParseError
                 | InvalidFlags | IncompatibleFlags | UnsupportedFieldType | InvalidPageMagic
                 | UnsupportedLayout | CircularLink | IoError | Panic

  datatype Result<+T> = Ok(value: T) | Err(error: Error) {
    predicate IsFailure() { Err? }
    function PropagateFailure<U>(): Result<U> requires Err? { Err(error) }
    function Extract(): T requires Ok? { value }
    function ToOption(): Option<T> { if Ok? then Some(value) else None }
  }

  // ── Little-endian integers ────────────────────────────────────────────────

  function Pow256(n: nat): (p: nat)
    ensures p >= 1
  {
    if n == 0 then 1 else 256 * Pow256(n - 1)
  }

  function Le(v: nat, n: nat): (s: Bytes)
    ensures |s| == n
  {
    if n == 0 then [] else [v % 256] + Le(v / 256, n - 1)
  }

  function ReadLe(s: Bytes): (v: nat)
    ensures v < Pow256(|s|)
  {
    if |s| == 0 then 0 else s[0] + 256 * ReadLe(s[1..])
  }

  lemma {:induction false} Pow256Values()
    ensures Pow256(1) == 256 && Pow256(2) == U16 && Pow256(4) == U32 && Pow256(8) == U64
  {
    assert Pow256(3) == 256 * Pow256(2);
    assert Pow256(5) == 256 * Pow256(4);
    assert Pow256(7) == 256 * Pow256(6);
  }

  lemma {:induction false} ModStep(v: nat, p: nat)
    requires p >= 1
    ensures v % 256 + 256 * ((v / 256) % p) == v % (256 * p)
  {
    var q, r := (v / 256) / p, (v / 256) % p;
    assert v == 256 * (p * q + r) + v % 256;
    assert v == (256 * p) * q + (256 * r + v % 256) by { assert 256 * (p * q) == (256 * p) * q; }
    ModUnique(v, 256 * p, q, 256 * r + v % 256);
  }

  lemma {:induction false} ModUnique(v: nat, m: nat, q: nat, r: nat)
    requires m >= 1 && r < m && v == m * q + r
    ensures v % m == r && v / m == q
  {
    assert v == m * (v / m) + v % m;
    MulMono(m, v / m + 1, q);
    MulMono(m, q + 1, v / m);
  }

  lemma {:induction false} MulMono(a: nat, x: int, y: int)
    ensures x <= y ==> a * x <= a * y
  {
  }

  /** Reading a written field gives the value back modulo the field's width. */
  lemma {:induction false} ReadLeTruncates(v: nat, n: nat)
    ensures ReadLe(Le(v, n)) == v % Pow256(n)
  {
    if n > 0 {
      ReadLeTruncates(v / 256, n - 1);
      assert Le(v, n)[1..] == Le(v / 256, n - 1);
      ModStep(v, Pow256(n - 1));
    }
  }

  lemma {:induction false} LeRoundTrip(v: nat, n: nat)
    requires v < Pow256(n)
    ensures ReadLe(Le(v, n)) == v
  {
    ReadLeTruncates(v, n);
    ModUnique(v, Pow256(n), 0, v);
  }

  /** A field is determined by the value it reads as. */
  lemma {:induction false} LeOfRead(s: Bytes)
    ensures Le(ReadLe(s), |s|) == s
  {
    if |s| > 0 {
      LeOfRead(s[1..]);
      var v := ReadLe(s);
      assert v % 256 == s[0] && v / 256 == ReadLe(s[1..]);
    }
  }

  // ── Signed integers ───────────────────────────────────────────────────────

  type Int64 = v: int | -0x8000_0000_0000_0000 <= v < 0x8000_0000_0000_0000
  type Bits64 = v: int | 0 <= v < 0x1_0000_0000_0000_0000

  /** Two's complement in `n` bytes: the bits of `v as iN`. */
  function Wrap(v: int, n: nat): (u: nat)
  {
    v % Pow256(n)
  }

  function Signed(u: nat, n: nat): (v: int)
  {
    if 2 * u < Pow256(n) then u else u - Pow256(n)
  }

  predicate FitsSigned(v: int, n: nat)
  {
    0 <= 2 * v + Pow256(n) && 2 * v < Pow256(n)
  }

  lemma {:induction false} SignedRoundTrip(v: int, n: nat)
    requires FitsSigned(v, n)
    ensures Wrap(v, n) < Pow256(n) && Signed(Wrap(v, n), n) == v
    ensures ReadLe(Le(Wrap(v, n), n)) == Wrap(v, n)
  {
    var p := Pow256(n);
    if v >= 0 {
      ModUnique(v, p, 0, v);
    } else {
      assert v % p == v + p by { ModShift(v, p); }
    }
    LeRoundTrip(Wrap(v, n), n);
  }

  lemma {:induction false} ModShift(v: int, p: nat)
    requires p >= 1 && 0 <= v + p && v < 0
    ensures v % p == v + p
  {
    assert v == p * (v / p) + v % p;
    MulMono(p, v / p, -2);
    MulMono(p, 0, v / p);
  }

  function Le64(v: Int64): (s: Bytes)
    ensures |s| == 8
  {
    Le(Wrap(v, 8), 8)
  }

  /** `i64::from_le_bytes`. */
  function ReadI64(s: Bytes): (v: Int64)
    requires |s| == 8
  {
    Pow256Values();
    Signed(ReadLe(s), 8)
  }

  lemma {:induction false} I64RoundTrip(v: Int64)
    ensures ReadI64(Le64(v)) == v
  {
    Pow256Values();
    SignedRoundTrip(v, 8);
  }

  // ── Reading at an offset ──────────────────────────────────────────────────

  /** `data` holds `s` at `off`. */
  predicate At(data: Bytes, off: int, s: Bytes)
  {
    0 <= off && off + |s| <= |data| && data[off..off + |s|] == s
  }

  /** `data.get(off..off + n)` */
  function Get(data: Bytes, off: nat, n: nat): (s: Option<Bytes>)
  {
    if off + n <= |data| then Some(data[off..off + n]) else None
  }

  function ReadU(data: Bytes, off: nat, n: nat): (v: Option<nat>)
  {
    if off + n <= |data| then Some(ReadLe(data[off..off + n])) else None
  }

  lemma {:induction false} AtGet(data: Bytes, off: nat, s: Bytes)
    requires At(data, off, s)
    ensures Get(data, off, |s|) == Some(s) && ReadU(data, off, |s|) == Some(ReadLe(s))
  {
  }

  lemma {:induction false} AtInside(data: Bytes, off: nat, s: Bytes)
    requires At(data, off, s)
    ensures off + |s| <= |data|
  {
  }

  lemma {:induction false} AtLe(data: Bytes, off: nat, v: nat, n: nat)
    requires At(data, off, Le(v, n))
    ensures off + n <= |data| && data[off..off + n] == Le(v, n)
    ensures ReadU(data, off, n) == Some(v % Pow256(n))
    ensures v < Pow256(n) ==> ReadU(data, off, n) == Some(v)
  {
    ReadLeTruncates(v, n);
    if v < Pow256(n) { LeRoundTrip(v, n); }
  }

  lemma {:induction false} AtConcat(data: Bytes, off: int, a: Bytes, b: Bytes)
    ensures At(data, off, a + b) <==> At(data, off, a) && At(data, off + |a|, b)
  {
    if At(data, off, a + b) {
      assert data[off..off + |a|] == data[off..off + |a + b|][..|a|] == a;
      assert data[off + |a|..off + |a| + |b|] == data[off..off + |a + b|][|a|..] == b;
    }
    if At(data, off, a) && At(data, off + |a|, b) {
      assert data[off..off + |a + b|] == data[off..off + |a|] + data[off + |a|..off + |a| + |b|];
    }
  }

  lemma {:induction false} AtSlice(data: Bytes, off: int, s: Bytes, i: nat, j: nat)
    requires At(data, off, s) && i <= j <= |s|
    ensures At(data, off + i, s[i..j])
  {
    var t := data[off + i..off + i + |s[i..j]|];
    forall k | 0 <= k < j - i
      ensures t[k] == s[i..j][k]
    {
      assert data[off..off + |s|][i + k] == data[off + i + k];
    }
  }

  lemma {:induction false} AtIndex(data: Bytes, off: int, s: Bytes, i: nat)
    requires At(data, off, s) && i < |s|
    ensures 0 <= off + i < |data| && data[off + i] == s[i]
  {
    assert data[off..off + |s|][i] == data[off + i];
  }

  /** The first byte at `off`, and what follows it. */
  lemma {:induction false} AtHead(data: Bytes, off: int, head: Bytes, rest: Bytes)
    requires At(data, off, head + rest) && |head| == 1
    ensures 0 <= off < |data| && data[off] == head[0] && At(data, off + 1, rest)
  {
    AtConcat(data, off, head, rest);
    AtIndex(data, off, head, 0);
  }

  // ── Concatenation ─────────────────────────────────────────────────────────

  function Join(parts: seq<Bytes>): Bytes
  {
    if |parts| == 0 then [] else Join(parts[..|parts| - 1]) + parts[|parts| - 1]
  }

  lemma {:induction false} JoinSnoc(parts: seq<Bytes>, part: Bytes)
    ensures Join(parts + [part]) == Join(parts) + part
  {
    assert (parts + [part])[..|parts|] == parts;
  }

  /** Where the parts lie, each part lies after the parts before it. */
  lemma {:induction false} JoinAt(data: Bytes, off: int, parts: seq<Bytes>, k: nat)
    requires At(data, off, Join(parts)) && k < |parts|
    ensures At(data, off + |Join(parts[..k])|, parts[k])
    ensures |Join(parts[..k])| + |parts[k]| == |Join(parts[..k + 1])| <= |Join(parts)|
    decreases |parts|
  {
    var front := parts[..|parts| - 1];
    AtConcat(data, off, Join(front), parts[|parts| - 1]);
    if k < |front| {
      JoinAt(data, off, front, k);
      assert front[..k] == parts[..k] && front[..k + 1] == parts[..k + 1];
    } else {
      assert parts[..k + 1] == parts;
    }
  }

  lemma {:induction false} JoinNext(parts: seq<Bytes>, k: nat)
    requires k < |parts|
    ensures Join(parts[..k + 1]) == Join(parts[..k]) + parts[k]
  {
    assert parts[..k + 1] == parts[..k] + [parts[k]];
    JoinSnoc(parts[..k], parts[k]);
  }

  lemma {:induction false} JoinMono(parts: seq<Bytes>, i: nat, j: nat)
    requires i <= j <= |parts|
    ensures |Join(parts[..i])| <= |Join(parts[..j])|
    decreases j - i
  {
    if i < j {
      JoinMono(parts, i, j - 1);
      assert parts[..j][..j - 1] == parts[..j - 1];
    }
  }

  lemma {:induction false} JoinSum(a: seq<Bytes>, b: seq<Bytes>)
    ensures Join(a + b) == Join(a) + Join(b)
    decreases |b|
  {
    if |b| == 0 {
      assert a + b == a;
    } else {
      var front, last := b[..|b| - 1], b[|b| - 1];
      JoinSum(a, front);
      assert a + b == (a + front) + [last];
      JoinSnoc(a + front, last);
    }
  }

  // ── Runs of fields ────────────────────────────────────────────────────────

  /** Each value in turn, as a field of `w` bytes. */
  function Fields(vals: seq<nat>, w: nat): (b: Bytes)
    ensures |b| == w * |vals|
  {
    if |vals| == 0 then []
    else
      assert w * |vals| == w + w * (|vals| - 1);
      Le(vals[0], w) + Fields(vals[1..], w)
  }

  lemma {:induction false} FieldsSnoc(vals: seq<nat>, v: nat, w: nat)
    ensures Fields(vals + [v], w) == Fields(vals, w) + Le(v, w)
  {
    if |vals| == 0 {
      assert Fields([v], w) == Le(v, w) + Fields([], w);
    } else {
      assert (vals + [v])[1..] == vals[1..] + [v];
      FieldsSnoc(vals[1..], v, w);
    }
  }

  /** `for v in vals { b.extend_from_slice(&v.to_le_bytes()) }` */
  method AppendFields(b: Bytes, vals: seq<nat>, w: nat) returns (r: Bytes)
    ensures r == b + Fields(vals, w)
  {
    hide Fields;
    r := b;
    FieldsNone(w);
    assert vals[..0] == [];
    for k := 0 to |vals|
      invariant r == b + Fields(vals[..k], w)
    {
      FieldsSnoc(vals[..k], vals[k], w);
      assert vals[..k + 1] == vals[..k] + [vals[k]];
      r := r + Le(vals[k], w);
    }
    assert vals[..|vals|] == vals;
  }

  lemma {:induction false} FieldsNone(w: nat)
    ensures Fields([], w) == []
  {
  }

  lemma {:induction false} FieldAt(data: Bytes, off: nat, vals: seq<nat>, w: nat, i: nat)
    requires At(data, off, Fields(vals, w)) && i < |vals|
    ensures At(data, off + w * i, Le(vals[i], w))
    decreases i
  {
    hide At, Fields, Le;
    FieldsHead(vals, w);
    AtConcat(data, off, Le(vals[0], w), Fields(vals[1..], w));
    TimesStep(w, i);
    if i > 0 { FieldAt(data, off + w, vals[1..], w, i - 1); }
  }

  lemma {:induction false} FieldsHead(vals: seq<nat>, w: nat)
    requires |vals| > 0
    ensures Fields(vals, w) == Le(vals[0], w) + Fields(vals[1..], w)
  {
  }

  lemma {:induction false} TimesStep(w: nat, i: nat)
    ensures if i == 0 then w * i == 0 else w * i == w + w * (i - 1)
  {
  }

  lemma {:induction false} FieldReads(data: Bytes, off: nat, vals: seq<nat>, w: nat, i: nat)
    requires At(data, off, Fields(vals, w)) && i < |vals| && vals[i] < Pow256(w)
    ensures ReadU(data, off + w * i, w) == Some(vals[i])
  {
    FieldAt(data, off, vals, w, i);
    AtLe(data, off + w * i, vals[i], w);
  }

  // ── Padding ───────────────────────────────────────────────────────────────

  function Zeros(n: nat): (s: Bytes)
    ensures |s| == n
    ensures forall i :: 0 <= i < n ==> s[i] == 0
  {
    seq(n, i => 0)
  }

  /** The multiple of `a` that a `while len % a != 0 { push }` loop stops at. */
  function RoundUp(n: nat, a: nat): (r: nat)
    requires a >= 1
    ensures n <= r < n + a && r % a == 0
  {
    RoundUpBasics(n, a);
    n + (a - n % a) % a
  }

  lemma {:induction false} RoundUpBasics(n: nat, a: nat)
    requires a >= 1
    ensures 0 <= (a - n % a) % a < a && (n + (a - n % a) % a) % a == 0
  {
    var r := n % a;
    if r == 0 {
      ModUnique(a, a, 1, 0);
    } else {
      ModUnique(a - r, a, 0, a - r);
      assert n + (a - r) == a * (n / a + 1) by {
        assert n == a * (n / a) + r;
      }
      ModUnique(n + (a - r), a, n / a + 1, 0);
    }
  }

  /** `RoundUp` is the least multiple of `a` not below `n`. */
  lemma {:induction false} RoundUpLeast(n: nat, a: nat, m: nat)
    requires a >= 1 && n <= m && m % a == 0
    ensures RoundUp(n, a) <= m
  {
    var r := RoundUp(n, a);
    assert r == a * (r / a) && m == a * (m / a);
    MulMono(a, r / a, m / a);
    MulMono(a, m / a + 1, r / a);
  }

  lemma {:induction false} RoundUpUnique(n: nat, a: nat, m: nat)
    requires a >= 1 && n <= m < n + a && m % a == 0
    ensures RoundUp(n, a) == m
  {
    RoundUpLeast(n, a, m);
    var r := RoundUp(n, a);
    assert r == a * (r / a) && m == a * (m / a);
    MulMono(a, m / a, r / a);
    MulMono(a, r / a + 1, m / a);
  }

  /** `while body.len() % a != 0 { body.push(0) }` */
  function PadTo(s: Bytes, a: nat): (r: Bytes)
    requires a >= 1
    ensures |r| == RoundUp(|s|, a) && s <= r
  {
    s + Zeros(RoundUp(|s|, a) - |s|)
  }

  method PadLoop(s: Bytes, a: nat) returns (r: Bytes)
    requires a >= 1
    ensures r == PadTo(s, a)
  {
    r := s;
    while |r| % a != 0
      invariant |s| <= |r| <= RoundUp(|s|, a)
      invariant r == s + Zeros(|r| - |s|)
      decreases RoundUp(|s|, a) - |r|
    {
      assert Zeros(|r| - |s|) + [0] == Zeros(|r| + 1 - |s|);
      r := r + [0];
    }
    RoundUpLeast(|s|, a, |r|);
  }

  // ── Bits ──────────────────────────────────────────────────────────────────

  function Pow2(i: nat): (p: nat)
    ensures p >= 1
  {
    if i == 0 then 1 else 2 * Pow2(i - 1)
  }

  /** `(b >> i) & 1 == 1` */
  predicate Bit(b: nat, i: nat)
  {
    if i == 0 then b % 2 == 1 else Bit(b / 2, i - 1)
  }

  /** `b | (1 << i)` */
  function SetBit(b: nat, i: nat): (r: nat)
    ensures r == if Bit(b, i) then b else b + Pow2(i)
  {
    if i == 0 then (if b % 2 == 1 then b else b + 1) else b % 2 + 2 * SetBit(b / 2, i - 1)
  }

  /** The integer whose bit `i` is `bits[i]`. */
  function BitsValue(bits: seq<bool>): (v: nat)
    ensures v < Pow2(|bits|)
  {
    if |bits| == 0 then 0 else (if bits[0] then 1 else 0) + 2 * BitsValue(bits[1..])
  }

  lemma {:induction false} BitOfBits(bits: seq<bool>, i: nat)
    ensures Bit(BitsValue(bits), i) == (i < |bits| && bits[i])
  {
    if |bits| == 0 {
      BitZero(i);
    } else {
      assert BitsValue(bits) / 2 == BitsValue(bits[1..]);
      if i > 0 { BitOfBits(bits[1..], i - 1); }
    }
  }

  lemma {:induction false} BitZero(i: nat)
    ensures !Bit(0, i)
  {
    if i > 0 { BitZero(i - 1); }
  }

  lemma {:induction false} BitOfSet(b: nat, i: nat, j: nat)
    ensures Bit(SetBit(b, i), j) == (i == j || Bit(b, j))
  {
    if i > 0 && j > 0 { BitOfSet(b / 2, i - 1, j - 1); }
  }

  /** The low byte of a word keeps the word's low eight bits. */
  lemma {:induction false} BitLowByte(v: nat, j: nat)
    requires j < 8
    ensures Bit(v % 256, j) == Bit(v, j)
  {
    BitLow(v, 8, j);
  }

  lemma {:induction false} BitLow(v: nat, m: nat, j: nat)
    requires j < m <= 8
    ensures Bit(v % Pow2(m), j) == Bit(v, j)
    decreases m
  {
    var y := (v / 2) % Pow2(m - 1);
    ModStep2(v, Pow2(m - 1));
    if j > 0 { BitLow(v / 2, m - 1, j - 1); }
    BitOfDouble(v % 2, y, j);
  }

  lemma {:induction false} BitOfDouble(b: nat, y: nat, j: nat)
    requires b < 2
    ensures Bit(b + 2 * y, j) == if j == 0 then b == 1 else Bit(y, j - 1)
  {
    assert (b + 2 * y) / 2 == y && (b + 2 * y) % 2 == b;
  }

  lemma {:induction false} ModStep2(v: nat, p: nat)
    requires p >= 1
    ensures v % 2 + 2 * ((v / 2) % p) == v % (2 * p)
  {
    var q, r := (v / 2) / p, (v / 2) % p;
    assert v == 2 * (p * q + r) + v % 2;
    assert v == (2 * p) * q + (2 * r + v % 2) by { assert 2 * (p * q) == (2 * p) * q; }
    ModUnique(v, 2 * p, q, 2 * r + v % 2);
  }

  lemma {:induction false} BitHighByte(v: nat, i: nat)
    ensures Bit(v / 256, i) == Bit(v, i + 8)
  {
    var a := v / 2; var b := a / 2; var c := b / 2; var d := c / 2;
    var e := d / 2; var f := e / 2; var g := f / 2;
    assert Bit(v, i + 8) == Bit(a, i + 7) == Bit(b, i + 6) == Bit(c, i + 5);
    assert Bit(c, i + 5) == Bit(d, i + 4) == Bit(e, i + 3) == Bit(f, i + 2) == Bit(g, i + 1);
    assert g / 2 == v / 256;
  }

  /** Bit `j` of byte `k` of a little-endian word is bit `8 * k + j` of the word. */
  lemma {:induction false} BitOfByte(v: nat, n: nat, k: nat, j: nat)
    requires k < n && j < 8
    ensures Bit(Le(v, n)[k], j) == Bit(v, 8 * k + j)
  {
    if k == 0 {
      BitLowByte(v, j);
    } else {
      BitOfByte(v / 256, n - 1, k - 1, j);
      BitHighByte(v, 8 * (k - 1) + j);
    }
  }
}
