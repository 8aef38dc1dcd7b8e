/**
 * Kotlin's fixed-width integers. Dafny integers are unbounded, so every
 * place where the app computes in `Int` or `Long` applies the matching
 * wrap-around explicitly.
 */
module KotlinNumbers {

  /** Kotlin `Int`: two's-complement, 32 bits. */
  type Int = x: int | -0x8000_0000 <= x < 0x8000_0000

  /** Kotlin `Long`: two's-complement, 64 bits. */
  type Long = x: int | -0x8000_0000_0000_0000 <= x < 0x8000_0000_0000_0000

  const LongMin: int := -0x8000_0000_0000_0000
  const LongMax: int := 0x7FFF_FFFF_FFFF_FFFF

  /** The `Int` a 32-bit operation leaves when the exact result is `x`. */
  function Wrap32(x: int): (r: Int)
    ensures (x - r) % 0x1_0000_0000 == 0
    ensures -0x8000_0000 <= x < 0x8000_0000 ==> r == x
  {
    (x + 0x8000_0000) % 0x1_0000_0000 - 0x8000_0000
  }

  /** The `Long` a 64-bit operation leaves when the exact result is `x`. */
  function Wrap64(x: int): (r: Long)
    ensures (x - r) % 0x1_0000_0000_0000_0000 == 0
    ensures -0x8000_0000_0000_0000 <= x < 0x8000_0000_0000_0000 ==> r == x
  {
    (x + 0x8000_0000_0000_0000) % 0x1_0000_0000_0000_0000 - 0x8000_0000_0000_0000
  }

  /** Adding a multiple of 2^32 to an exact result leaves the wrapped `Int` unchanged. */
  lemma Wrap32Shift(y: int, k: int)
    ensures Wrap32(y + k * 0x1_0000_0000) == Wrap32(y)
  {
    var q := (y + 0x8000_0000) / 0x1_0000_0000;
    var m := (y + 0x8000_0000) % 0x1_0000_0000;
    assert y + k * 0x1_0000_0000 + 0x8000_0000 == (q + k) * 0x1_0000_0000 + m;
  }

  /** Wrapping before a multiplication by 60 does not change the wrapped product. */
  lemma Wrap32Times60(x: int)
    ensures Wrap32(Wrap32(x) * 60) == Wrap32(x * 60)
  {
    var w: int := Wrap32(x);
    var k := (x + 0x8000_0000) / 0x1_0000_0000;
    assert x == w + k * 0x1_0000_0000;
    Wrap32Shift(w * 60, k * 60);
  }

  /** Wrapping before a multiplication by 1000 does not change the wrapped product. */
  lemma Wrap32Times1000(x: int)
    ensures Wrap32(Wrap32(x) * 1000) == Wrap32(x * 1000)
  {
    var w: int := Wrap32(x);
    var k := (x + 0x8000_0000) / 0x1_0000_0000;
    assert x == w + k * 0x1_0000_0000;
    Wrap32Shift(w * 1000, k * 1000);
  }

  /**
   * Wrapping after each of several multiplications by constants gives the
   * same `Int` as wrapping the exact product once: `a * 60 * 60 * 1000`
   * evaluated in `Int` is `Wrap32(a * 3_600_000)`.
   */
  lemma {:induction false} Wrap32HourProduct(a: int)
    ensures Wrap32(Wrap32(Wrap32(a * 60) * 60) * 1000) == Wrap32(a * 3_600_000)
  {
    Wrap32Times60(a * 60);
    Wrap32Times1000(a * 3600);
  }
}
