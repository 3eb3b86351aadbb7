/** Numbers in base 256, which both byte orders write down digit by digit. */
module Base256 {
  const TWO_64: nat := 0x1_0000_0000_0000_0000

  function Power256(n: nat): (p: nat)
    ensures p > 0
  {
    if n == 0 then 1 else 256 * Power256(n - 1)
  }

  lemma Power256Of8()
    ensures Power256(8) == TWO_64 && Power256(4) == 0x1_0000_0000
  {
    assert Power256(4) == 256 * 256 * 256 * 256;
    assert Power256(8) == 256 * 256 * 256 * 256 * Power256(4);
  }

  /** The unsigned shift of v to the right by 8 * i bits. */
  function ShiftRight8(v: nat, i: nat): nat {
    if i == 0 then v else ShiftRight8(v / 256, i - 1)
  }
}
