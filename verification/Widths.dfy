/** The machine integers of the program, by how many values they have. */
module Widths {
  import opened Bytes

  const U16: nat := 0x1_0000
  const U32: nat := 0x1_0000_0000
  const U64: nat := 0x1_0000_0000_0000_0000
  const U64_MAX: nat := 0xFFFF_FFFF_FFFF_FFFF
  const I32_MAX: int := 0x7FFF_FFFF

  /** How many values fit their big-endian bytes. */
  lemma BytesOf()
    ensures Pow256(2) == U16 && Pow256(4) == U32 && Pow256(8) == U64
  {
    assert Pow256(2) == 65536;
    assert Pow256(4) == 256 * (256 * Pow256(2));
    assert Pow256(6) == 256 * (256 * Pow256(4));
  }
}
