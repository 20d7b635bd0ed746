/**
 The key function of the node and port tables.
 */
module Hash {
  const U32 := 0x1_0000_0000
  const MULTIPLIER := 2654435761
  const INVERSE := 244002641

  type u32 = x: int | 0 <= x < U32

  function HashU32(value: u32): u32 {
    value * MULTIPLIER % U32
  }

  lemma ModOfMultiple(v: u32, c: int)
    ensures (v + U32 * c) % U32 == v
  {
  }

  lemma Regroup(v: int, q: int)
    ensures (v * MULTIPLIER - q * U32) * INVERSE == v + U32 * (v * 150801925 - q * INVERSE)
  {
  }

  /** Multiplying by the inverse of the odd multiplier gives the value back. */
  lemma HashInverse(v: u32)
    ensures HashU32(v) * INVERSE % U32 == v
  {
    var q := v * MULTIPLIER / U32;
    assert HashU32(v) == v * MULTIPLIER - q * U32;
    Regroup(v, q);
    ModOfMultiple(v, v * 150801925 - q * INVERSE);
  }

  /** Different ids have different keys, so a table of keys is a table of ids. */
  lemma HashInjective(a: u32, b: u32)
    ensures HashU32(a) == HashU32(b) <==> a == b
  {
    HashInverse(a);
    HashInverse(b);
  }
}
