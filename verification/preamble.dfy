/** The 32-byte preamble that every file starts with. */
module Preamble {
  import opened Bytes
  import opened CompactSchema

  const MAGIC_FILE: nat := 0x4E59_5842
  const VERSION: nat := 0x0101
  const VERSION_V13: nat := 0x0103

  /** The hash of the schema bytes, which nothing here looks into. */
  type Hash = Bytes -> Bits64

  function PreambleBytes(version: nat, flags: WireFlags, dictHash: nat, tailPtr: nat): (b: Bytes)
    ensures |b| == 32
  {
    Le(MAGIC_FILE, 4) + Le(version, 2) + Le(flags.Value(), 2) + Le(dictHash, 8) + Le(tailPtr, 8) + Le(0, 8)
  }

  lemma {:induction false} PreambleReads(data: Bytes, version: nat, flags: WireFlags, dictHash: nat, tailPtr: nat)
    requires At(data, 0, PreambleBytes(version, flags, dictHash, tailPtr)) && tailPtr < U64
    ensures |data| >= 32 && ReadU(data, 0, 4) == Some(MAGIC_FILE) && ReadU(data, 16, 8) == Some(tailPtr)
    ensures dictHash < U64 ==> ReadU(data, 8, 8) == Some(dictHash)
    ensures ReadU(data, 6, 2) == Some(flags.Value()) && FlagsOf(flags.Value()) == flags
  {
    hide Le, WireFlags.Value, FlagsOf;
    Pow256Values();
    FlagsRoundTrip(flags);
    var a, b, c, d, e, f := Le(MAGIC_FILE, 4), Le(version, 2), Le(flags.Value(), 2), Le(dictHash, 8), Le(tailPtr, 8), Le(0, 8);
    AtConcat(data, 0, a + b + c + d + e, f);
    AtConcat(data, 0, a + b + c + d, e);
    AtConcat(data, 0, a + b + c, d);
    AtConcat(data, 0, a + b, c);
    AtConcat(data, 0, a, b);
    AtLe(data, 0, MAGIC_FILE, 4);
    AtLe(data, 6, flags.Value(), 2);
    AtLe(data, 8, dictHash, 8);
    AtLe(data, 16, tailPtr, 8);
  }
}
