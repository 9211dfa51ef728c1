/** The sizes of the machine integers, in bits. */
module Widths {
  import opened Machine

  function PowerOfTwo(bits: nat): nat {
    if bits == 0 then 1 else 2 * PowerOfTwo(bits - 1)
  }

  lemma Doubling(bits: nat)
    ensures PowerOfTwo(bits + 8) == 256 * PowerOfTwo(bits)
  {
    assert PowerOfTwo(bits + 2) == 4 * PowerOfTwo(bits);
    assert PowerOfTwo(bits + 4) == 4 * PowerOfTwo(bits + 2);
    assert PowerOfTwo(bits + 6) == 4 * PowerOfTwo(bits + 4);
    assert PowerOfTwo(bits + 8) == 4 * PowerOfTwo(bits + 6);
  }

  /** The largest values are those of 32 and of 64 bits. */
  lemma LargestValues()
    ensures U32_MAX + 1 == PowerOfTwo(32)
    ensures U64_MAX + 1 == PowerOfTwo(64) && USIZE_MAX + 1 == PowerOfTwo(64)
  {
    Doubling(0);
    Doubling(8);
    Doubling(16);
    Doubling(24);
    Doubling(32);
    Doubling(40);
    Doubling(48);
    Doubling(56);
  }
}
