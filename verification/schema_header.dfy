/**
 The embedded schema header: key sigils, NUL-terminated key names and, in a compact file, cell widths, field
 attributes and the value pool. A written header parses back exactly when its names and counts can be
 represented.
 */
module SchemaHeader {
  import opened Bytes
  import opened CompactSchema

  // ── NUL-terminated names ──────────────────────────────────────────────────

  function Names(names: seq<Bytes>): Bytes
  {
    if |names| == 0 then [] else names[0] + [0] + Names(names[1..])
  }

  /** `while p < data.len() && data[p] != 0 { p += 1 }` */
  function NulAt(data: Bytes, p: nat): (q: nat)
    requires p <= |data|
    ensures p <= q <= |data| && (q < |data| ==> data[q] == 0)
    ensures forall i :: p <= i < q ==> data[i] != 0
    decreases |data| - p
  {
    if p == |data| || data[p] == 0 then p else NulAt(data, p + 1)
  }

  datatype Parsed = Parsed(names: seq<Bytes>, next: nat)

  /** The name loop of the schema parsers. */
  function ParseNames(data: Bytes, p: nat, n: nat): (r: Result<Parsed>)
    ensures r.Ok? ==> |r.value.names| == n
    decreases n
  {
    if n == 0 then Ok(Parsed([], p))
    else if p > |data| then Err(OutOfBounds)
    else
      var q := NulAt(data, p);
      if q == |data| then Err(OutOfBounds)
      else
        var rest :- ParseNames(data, q + 1, n - 1);
        Ok(Parsed([data[p..q]] + rest.names, rest.next))
  }

  method ReadNames(data: Bytes, start: nat, n: nat) returns (r: Result<Parsed>)
    requires start <= |data|
    ensures r == ParseNames(data, start, n)
  {
    var names: seq<Bytes> := [];
    var p: nat := start;
    ResumedEnds(ParseNames(data, start, n), names, p);
    for k := 0 to n
      invariant 0 <= p <= |data|
      invariant ParseNames(data, start, n) == Resumed(names, ParseNames(data, p, n - k))
    {
      var from := p;
      while p < |data| && data[p] != 0
        invariant from <= p <= |data| && NulAt(data, from) == NulAt(data, p)
      {
        p := p + 1;
      }
      if p >= |data| { return Err(OutOfBounds); }
      ResumedStep(names, data[from..p], ParseNames(data, p + 1, n - k - 1));
      names := names + [data[from..p]];
      p := p + 1;
    }
    ResumedEnds(Ok(Parsed(names, p)), names, p);
    r := Ok(Parsed(names, p));
  }

  ghost function Resumed(names: seq<Bytes>, rest: Result<Parsed>): Result<Parsed>
  {
    if rest.Ok? then Ok(Parsed(names + rest.value.names, rest.value.next)) else rest
  }

  lemma {:induction false} ResumedStep(names: seq<Bytes>, name: Bytes, rest: Result<Parsed>)
    ensures rest.Ok? ==>
              Resumed(names, Ok(Parsed([name] + rest.value.names, rest.value.next))) == Resumed(names + [name], rest)
  {
    assert rest.Ok? ==> names + ([name] + rest.value.names) == names + [name] + rest.value.names;
  }

  lemma {:induction false} ResumedEnds(all: Result<Parsed>, names: seq<Bytes>, p: nat)
    ensures Resumed([], all) == all && Resumed(names, Ok(Parsed([], p))) == Ok(Parsed(names, p))
  {
    assert names + [] == names;
    assert all.Ok? ==> [] + all.value.names == all.value.names;
  }

  method AppendNames(b: Bytes, names: seq<Bytes>) returns (r: Bytes)
    ensures r == b + Names(names)
  {
    r := b;
    assert names[0..] == names;
    for k := 0 to |names|
      invariant r + Names(names[k..]) == b + Names(names)
    {
      assert names[k..][1..] == names[k + 1..];
      assert r + Names(names[k..]) == (r + names[k] + [0]) + Names(names[k + 1..]);
      r := r + names[k] + [0];
    }
    assert r + [] == r;
  }

  predicate NulFree(names: seq<Bytes>)
  {
    forall k :: 0 <= k < |names| ==> 0 !in names[k]
  }

  lemma {:induction false} NulAtIs(data: Bytes, p: nat, name: Bytes)
    requires At(data, p, name + [0])
    ensures p <= NulAt(data, p) <= p + |name| < |data|
    ensures NulAt(data, p) == p + |name| <==> 0 !in name
    ensures 0 !in name ==> data[p..NulAt(data, p)] == name
  {
    var q := NulAt(data, p);
    AtConcat(data, p, name, [0]);
    AtIndex(data, p, name + [0], |name|);
    assert q <= p + |name|;
    assert forall i :: 0 <= i < |name| ==> name[i] == data[p..p + |name|][i] == data[p + i];
    if q < p + |name| {
      assert name[q - p] == 0;
    }
  }

  /** Written names parse back exactly when no name holds a NUL. */
  lemma {:induction false} NamesRoundTrip(data: Bytes, p: nat, names: seq<Bytes>)
    requires At(data, p, Names(names))
    ensures (ParseNames(data, p, |names|).Ok? && ParseNames(data, p, |names|).value.names == names) <==> NulFree(names)
    ensures NulFree(names) ==> ParseNames(data, p, |names|) == Ok(Parsed(names, p + |Names(names)|))
    decreases |names|
  {
    hide At, NulAt, NulFree;
    NulFreeHead(names);
    if |names| > 0 {
      var name, rest := names[0], names[1..];
      AtConcat(data, p, name + [0], Names(rest));
      NulAtIs(data, p, name);
      var tail := ParseNames(data, NulAt(data, p) + 1, |rest|);
      assert names == [name] + rest;
      if 0 !in name {
        NamesRoundTrip(data, p + |name| + 1, rest);
        assert tail.Ok? && [name] + tail.value.names == names ==> tail.value.names == names[1..];
      } else if tail.Ok? {
        assert ([data[p..NulAt(data, p)]] + tail.value.names)[0] != name;
      }
    }
  }

  lemma {:induction false} NulFreeHead(names: seq<Bytes>)
    ensures NulFree(names) <==> |names| == 0 || (0 !in names[0] && NulFree(names[1..]))
  {
    if |names| > 0 && 0 !in names[0] && NulFree(names[1..]) {
      forall k | 0 <= k < |names|
        ensures 0 !in names[k]
      {
        if k > 0 { assert names[1..][k - 1] == names[k]; }
      }
    }
  }

  // ── The v1.2 header ───────────────────────────────────────────────────────

  /** An unobserved sigil is written as a string's. */
  function KnownSigils(n: nat, sigils: Bytes): (s: Bytes)
    ensures |s| == n
  {
    seq(n, i requires 0 <= i => if i < |sigils| && sigils[i] != 0 then sigils[i] else SIGIL_STR)
  }

  function Head(keys: seq<Bytes>, sigils: Bytes): Bytes
  {
    Le(|keys|, 2) + sigils + Names(keys)
  }

  /** `build_schema` */
  function BasicHeader(keys: seq<Bytes>, sigils: Bytes): (b: Bytes)
    ensures |b| % 8 == 0
  {
    PadTo(Head(keys, KnownSigils(|keys|, sigils)), 8)
  }

  method BuildSchema(keys: seq<Bytes>, sigils: Bytes) returns (b: Bytes)
    ensures b == BasicHeader(keys, sigils)
  {
    b := Le(|keys|, 2);
    for i := 0 to |keys|
      invariant b == Le(|keys|, 2) + KnownSigils(|keys|, sigils)[..i]
    {
      b := b + [if i < |sigils| && sigils[i] != 0 then sigils[i] else SIGIL_STR];
    }
    assert KnownSigils(|keys|, sigils)[..|keys|] == KnownSigils(|keys|, sigils);
    b := AppendNames(b, keys);
    b := PadLoop(b, 8);
  }

  datatype Header = Header(keys: seq<Bytes>, sigils: Bytes, end: nat)

  /** The key count, sigils and names that both headers start with; `end` is before any padding. */
  function ParseHead(data: Bytes, pos: nat, limit: nat): (r: Result<Header>)
    ensures r.Ok? ==> |r.value.sigils| == |r.value.keys| <= limit
  {
    if pos + 2 > |data| then Err(OutOfBounds)
    else
      var n := ReadLe(data[pos..pos + 2]);
      if n > limit || pos + 2 + n > |data| then Err(OutOfBounds)
      else
        var names :- ParseNames(data, pos + 2 + n, n);
        Ok(Header(names.names, data[pos + 2..pos + 2 + n], names.next))
  }

  /** `parse_schema` */
  function ParseBasic(data: Bytes, pos: nat): Result<Header>
  {
    Pow256Values();
    var head :- ParseHead(data, pos, U16);
    Ok(head.(end := RoundUp(head.end, 8)))
  }

  method ParseSchema(data: Bytes, offset: nat) returns (r: Result<Header>)
    ensures r == ParseBasic(data, offset)
  {
    if offset + 2 > |data| { return Err(OutOfBounds); }
    Pow256Values();
    var keyCount := ReadLe(data[offset..offset + 2]);
    var pos := offset + 2;
    if pos + keyCount > |data| { return Err(OutOfBounds); }
    var sigils := data[pos..pos + keyCount];
    pos := pos + keyCount;
    var names := ReadNames(data, pos, keyCount);
    if names.Err? { return Err(names.error); }
    pos := names.value.next;
    RoundUpUnique(pos, 8, if pos % 8 != 0 then pos + (8 - pos % 8) else pos);
    if pos % 8 != 0 {
      pos := pos + (8 - pos % 8);
    }
    r := Ok(Header(names.value.names, sigils, pos));
  }

  /** The head parses back exactly when the key count fits and no key holds a NUL. */
  lemma {:induction false} HeadRoundTrip(data: Bytes, pos: nat, keys: seq<Bytes>, sigils: Bytes, limit: nat)
    requires |sigils| == |keys| && limit <= U16 && At(data, pos, Head(keys, sigils))
    ensures (ParseHead(data, pos, limit).Ok? && ParseHead(data, pos, limit).value.keys == keys) <==>
            (|keys| <= limit && |keys| < U16 && NulFree(keys))
    ensures |keys| <= limit && |keys| < U16 && NulFree(keys) ==>
              ParseHead(data, pos, limit) == Ok(Header(keys, sigils, pos + |Head(keys, sigils)|))
  {
    hide ParseNames, Names, NulFree;
    Pow256Values();
    AtConcat(data, pos, Le(|keys|, 2) + sigils, Names(keys));
    AtConcat(data, pos, Le(|keys|, 2), sigils);
    AtLe(data, pos, |keys|, 2);
    if |keys| < U16 {
      NamesRoundTrip(data, pos + 2 + |keys|, keys);
    } else {
      ModUnique(|keys|, U16, |keys| / U16, |keys| % U16);
    }
  }

  lemma {:induction false} RoundUpShift(pos: nat, n: nat)
    requires pos % 8 == 0
    ensures RoundUp(pos + n, 8) == pos + RoundUp(n, 8)
  {
    RoundUpUnique(pos + n, 8, pos + RoundUp(n, 8));
  }

  /**
   At an 8-aligned position, a v1.2 header followed by anything parses back to the keys exactly when there
   are at most 65535 and none holds a NUL; the parse then ends where the header does.
   */
  lemma {:induction false} BasicRoundTrip(data: Bytes, pos: nat, keys: seq<Bytes>, sigils: Bytes)
    requires pos % 8 == 0 && At(data, pos, BasicHeader(keys, sigils))
    ensures (ParseBasic(data, pos).Ok? && ParseBasic(data, pos).value.keys == keys) <==> (|keys| < U16 && NulFree(keys))
    ensures |keys| < U16 && NulFree(keys) ==>
              ParseBasic(data, pos) == Ok(Header(keys, KnownSigils(|keys|, sigils), pos + |BasicHeader(keys, sigils)|))
  {
    hide ParseHead, Head, NulFree, KnownSigils;
    var head := Head(keys, KnownSigils(|keys|, sigils));
    AtConcat(data, pos, head, Zeros(RoundUp(|head|, 8) - |head|));
    HeadRoundTrip(data, pos, keys, KnownSigils(|keys|, sigils), U16);
    RoundUpShift(pos, |head|);
  }

  // ── The v1.3 header ───────────────────────────────────────────────────────

  function Sections(schema: Schema, flags: WireFlags): Bytes
  {
    (if flags.narrow then schema.widths else []) + (if flags.Compact() then schema.attrs else [])
  }

  /** The header up to and including the number of values in the pool. */
  function ExtendedHead(schema: Schema, flags: WireFlags): Bytes
  {
    PadTo(Head(schema.keys, schema.sigils), 8) + Sections(schema, flags) + Le(|schema.pool|, 2)
  }

  /** `build_extended_schema` */
  function ExtendedHeader(schema: Schema, flags: WireFlags): Bytes
  {
    if |schema.pool| == 0 then ExtendedHead(schema, flags)
    else PadTo(ExtendedHead(schema, flags) + Names(schema.pool), 8)
  }

  method BuildExtendedSchema(schema: Schema, flags: WireFlags) returns (b: Bytes)
    requires schema.Shaped()
    ensures b == ExtendedHeader(schema, flags)
  {
    hide Names;
    b := Le(|schema.keys|, 2) + schema.sigils;
    b := AppendNames(b, schema.keys);
    b := PadLoop(b, 8);
    ghost var head := b;
    if flags.narrow {
      b := AppendBytes(b, schema.widths);
    }
    if flags.Compact() {
      b := AppendBytes(b, schema.attrs);
    }
    assert b == head + Sections(schema, flags);
    b := b + Le(|schema.pool|, 2);
    if |schema.pool| > 0 {
      b := AppendNames(b, schema.pool);
      b := PadLoop(b, 8);
    }
  }

  method AppendBytes(b: Bytes, s: Bytes) returns (r: Bytes)
    ensures r == b + s
  {
    r := b;
    for i := 0 to |s|
      invariant r == b + s[..i]
    {
      r := r + [s[i]];
    }
  }

  datatype ExtHeader = ExtHeader(schema: Schema, end: nat)

  /** A section of `n` bytes that is present only under its flag. */
  function Section(data: Bytes, p: nat, n: nat, present: bool): (r: Result<Bytes>)
    ensures r.Ok? ==> |r.value| == n
  {
    if !present then Ok(Zeros(n))
    else if p + n > |data| then Err(OutOfBounds)
    else Ok(data[p..p + n])
  }

  /** The value pool, which is empty when the data ends before its count. */
  function ParsePool(data: Bytes, p: nat): Result<Parsed>
  {
    if p + 2 > |data| then Ok(Parsed([], p))
    else
      var n := ReadLe(data[p..p + 2]);
      if n == 0 then Ok(Parsed([], p + 2))
      else
        var names :- ParseNames(data, p + 2, n);
        Ok(names.(next := RoundUp(names.next, 8)))
  }

  /** `parse_extended_schema` */
  function ParseExtended(data: Bytes, pos: nat, flags: WireFlags): Result<ExtHeader>
  {
    var head :- ParseHead(data, pos, 256);
    var n := |head.keys|;
    var p := RoundUp(head.end, 8);
    var widths :- Section(data, p, n, flags.narrow);
    var p' := p + (if flags.narrow then n else 0);
    var attrs :- Section(data, p', n, flags.Compact());
    var pool :- ParsePool(data, p' + (if flags.Compact() then n else 0));
    if pool.next > |data| then Err(OutOfBounds)
    else Ok(ExtHeader(Schema(head.keys, head.sigils, widths, attrs, pool.names), pool.next))
  }

  method ParseExtendedSchema(data: Bytes, pos: nat, flags: WireFlags) returns (r: Result<ExtHeader>)
    ensures r == ParseExtended(data, pos, flags)
  {
    hide ParseNames, RoundUp, ReadLe;
    if pos + 2 > |data| { return Err(OutOfBounds); }
    var keyCount := ReadLe(data[pos..pos + 2]);
    if keyCount > 256 { return Err(OutOfBounds); }
    var p := pos + 2;
    if p + keyCount > |data| { return Err(OutOfBounds); }
    var sigils := data[p..p + keyCount];
    p := p + keyCount;
    var keys := ReadNames(data, p, keyCount);
    if keys.Err? { return Err(keys.error); }
    p := AlignEight(keys.value.next);
    var widths := Zeros(keyCount);
    if flags.narrow {
      if p + keyCount > |data| { return Err(OutOfBounds); }
      widths := data[p..p + keyCount];
      p := p + keyCount;
    }
    var attrs := Zeros(keyCount);
    if flags.Compact() {
      if p + keyCount > |data| { return Err(OutOfBounds); }
      attrs := data[p..p + keyCount];
      p := p + keyCount;
    }
    var pool: seq<Bytes> := [];
    if p + 2 <= |data| {
      var valueCount := ReadLe(data[p..p + 2]);
      p := p + 2;
      if valueCount > 0 {
        var values := ReadNames(data, p, valueCount);
        if values.Err? { return Err(values.error); }
        pool := values.value.names;
        p := AlignEight(values.value.next);
      }
    }
    if p > |data| { return Err(OutOfBounds); }
    r := Ok(ExtHeader(Schema(keys.value.names, sigils, widths, attrs, pool), p));
  }

  method AlignEight(p: nat) returns (q: nat)
    ensures q == RoundUp(p, 8)
  {
    q := p;
    if p % 8 != 0 {
      q := p + (8 - p % 8);
    }
    RoundUpUnique(p, 8, q);
  }

  /** What the flags let a header carry: widths only when cells are narrow, attributes only in a compact file. */
  function Carried(schema: Schema, flags: WireFlags): Schema
  {
    schema.(widths := if flags.narrow then schema.widths else Zeros(|schema.keys|),
            attrs := if flags.Compact() then schema.attrs else Zeros(|schema.keys|))
  }

  predicate Representable(schema: Schema)
  {
    |schema.keys| <= 256 && NulFree(schema.keys) && |schema.pool| < U16 && NulFree(schema.pool)
  }

  lemma {:induction false} PoolRoundTrip(data: Bytes, pos: nat, head: Bytes, pool: seq<Bytes>)
    requires pos % 8 == 0
    requires At(data, pos, if |pool| == 0 then head + Le(0, 2) else PadTo(head + Le(|pool|, 2) + Names(pool), 8))
    ensures var r := ParsePool(data, pos + |head|);
            && ((r.Ok? && r.value.names == pool) <==> (|pool| < U16 && NulFree(pool)))
            && (|pool| < U16 && NulFree(pool) ==>
                  r.value.next == pos + if |pool| == 0 then |head| + 2 else RoundUp(|head| + 2 + |Names(pool)|, 8))
  {
    hide ParseNames, Names, At, NulFree, Le, ReadLe;
    Pow256Values();
    NulFreeHead(pool);
    if |pool| == 0 {
      AtConcat(data, pos, head, Le(0, 2));
      AtLe(data, pos + |head|, 0, 2);
    } else {
      var all := head + Le(|pool|, 2) + Names(pool);
      AtConcat(data, pos, all, Zeros(RoundUp(|all|, 8) - |all|));
      AtConcat(data, pos, head + Le(|pool|, 2), Names(pool));
      AtConcat(data, pos, head, Le(|pool|, 2));
      AtLe(data, pos + |head|, |pool|, 2);
      if |pool| < U16 {
        NamesRoundTrip(data, pos + |head| + 2, pool);
        RoundUpShift(pos, |head| + 2 + |Names(pool)|);
      } else {
        ModUnique(|pool|, U16, |pool| / U16, |pool| % U16);
      }
    }
  }

  /**
   For every schema and every combination of flags, a v1.3 header at an 8-aligned position, followed by
   anything, parses back to what the flags carry and to the position where it ends, exactly when the
   schema is representable.
   */
  lemma {:induction false} ExtendedRoundTrip(data: Bytes, pos: nat, schema: Schema, flags: WireFlags)
    requires pos % 8 == 0 && schema.Shaped() && At(data, pos, ExtendedHeader(schema, flags))
    ensures ParseExtended(data, pos, flags) == Ok(ExtHeader(Carried(schema, flags), pos + |ExtendedHeader(schema, flags)|))
            <==> Representable(schema)
    ensures (ParseExtended(data, pos, flags).Ok? && ParseExtended(data, pos, flags).value.schema == schema) <==>
            Representable(schema) && Carried(schema, flags) == schema
  {
    hide ParseExtended, Head, Names, NulFree, ParsePool, Sections, Le;
    assert pos + |ExtendedHeader(schema, flags)| <= |data|;
    var head := PadTo(Head(schema.keys, schema.sigils), 8);
    HeaderParts(data, pos, schema, flags);
    PoolRoundTrip(data, pos, head + Sections(schema, flags), schema.pool);
    KeysDecide(data, pos, schema, flags);
  }

  /** With keys that parse back, the parse comes down to the pool; otherwise the keys differ. */
  lemma {:induction false} KeysDecide(data: Bytes, pos: nat, schema: Schema, flags: WireFlags)
    requires pos % 8 == 0 && schema.Shaped() && At(data, pos, ExtendedHeader(schema, flags))
    ensures |schema.keys| <= 256 && NulFree(schema.keys) ==>
              var c := Carried(schema, flags);
              var pool := ParsePool(data, pos + |PadTo(Head(schema.keys, schema.sigils), 8) + Sections(schema, flags)|);
              ParseExtended(data, pos, flags) ==
              match pool
              case Err(e) => Err(e)
              case Ok(p) =>
                if p.next > |data| then Err(OutOfBounds)
                else Ok(ExtHeader(Schema(c.keys, c.sigils, c.widths, c.attrs, p.names), p.next))
    ensures !(|schema.keys| <= 256 && NulFree(schema.keys)) ==>
              !(ParseExtended(data, pos, flags).Ok? && ParseExtended(data, pos, flags).value.schema.keys == schema.keys)
  {
    hide ParseHead, Head, Names, NulFree, ParsePool, Sections, Section, At, RoundUp;
    HeaderParts(data, pos, schema, flags);
    HeadRoundTrip(data, pos, schema.keys, schema.sigils, 256);
    RoundUpShift(pos, |Head(schema.keys, schema.sigils)|);
    SectionsRead(data, pos + |PadTo(Head(schema.keys, schema.sigils), 8)|, schema, flags);
  }

  lemma {:induction false} HeaderParts(data: Bytes, pos: nat, schema: Schema, flags: WireFlags)
    requires At(data, pos, ExtendedHeader(schema, flags))
    ensures var head := PadTo(Head(schema.keys, schema.sigils), 8);
            var sections := Sections(schema, flags);
            && At(data, pos, Head(schema.keys, schema.sigils))
            && At(data, pos + |head|, sections)
            && At(data, pos, if |schema.pool| == 0 then head + sections + Le(0, 2)
                             else PadTo(head + sections + Le(|schema.pool|, 2) + Names(schema.pool), 8))
  {
    hide Head, Names, Sections, Le;
    var h := Head(schema.keys, schema.sigils);
    var head, sections := PadTo(h, 8), Sections(schema, flags);
    var all := ExtendedHead(schema, flags) + Names(schema.pool);
    if |schema.pool| > 0 {
      AtConcat(data, pos, all, Zeros(RoundUp(|all|, 8) - |all|));
      AtConcat(data, pos, ExtendedHead(schema, flags), Names(schema.pool));
    }
    AtConcat(data, pos, head + sections, Le(|schema.pool|, 2));
    AtConcat(data, pos, head, sections);
    AtConcat(data, pos, h, Zeros(RoundUp(|h|, 8) - |h|));
  }

  lemma {:induction false} SectionsRead(data: Bytes, p: nat, schema: Schema, flags: WireFlags)
    requires schema.Shaped() && At(data, p, Sections(schema, flags))
    ensures var n := |schema.keys|;
            && Section(data, p, n, flags.narrow) == Ok(Carried(schema, flags).widths)
            && Section(data, p + (if flags.narrow then n else 0), n, flags.Compact()) == Ok(Carried(schema, flags).attrs)
            && |Sections(schema, flags)| == (if flags.narrow then n else 0) + (if flags.Compact() then n else 0)
  {
    AtConcat(data, p, if flags.narrow then schema.widths else [], if flags.Compact() then schema.attrs else []);
  }
}
