/** Small helpers shared by the programs (`src/util`). */
module Util {
  /** `ALIGN(x, align)`; for powers of two it is the macro's mask. */
  function AlignUp(x: int, align: nat): int
    requires align > 0
  {
    (x + align - 1) / align * align
  }

  lemma AlignUpIs(x: int, align: nat)
    requires align > 0
    ensures x <= AlignUp(x, align) < x + align
    ensures AlignUp(x, align) % align == 0 && (-AlignUp(x, align)) % align == 0
  {
    var q := (x + align - 1) / align;
    assert (x + align - 1) == q * align + (x + align - 1) % align;
    MulMod(q, align);
    MulMod(-q, align);
  }

  lemma MulMod(q: int, a: nat)
    requires a > 0
    ensures (q * a) % a == 0
  {
    var r, d := (q * a) % a, (q * a) / a;
    assert q * a == d * a + r && 0 <= r < a;
    assert (q - d) * a == r;
    MulBounds(q - d, a);
  }

  lemma MulBounds(x: int, a: nat)
    ensures x >= 1 ==> x * a >= a
    ensures x <= -1 ==> x * a + a <= 0
  {
    if x >= 1 {
      assert (x - 1) * a >= 0;
    } else if x <= -1 {
      assert (-x - 1) * a >= 0;
    }
  }

  predicate IsIm8(x: int) {
    -128 <= x <= 127
  }

  predicate IsIm32(x: int) {
    -0x8000_0000 <= x <= 0x7fff_ffff
  }
}
