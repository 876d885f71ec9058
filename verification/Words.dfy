/** Machine words: bytes, bits, two's complement. Integers are unbounded in Dafny,
    so every shift, truncation and wrap-around of the source is written out here. */
module Words {
  type Byte = b: int | 0 <= b < 256
  type Bytes = seq<Byte>

  const TWO_32 := 0x1_0000_0000
  const TWO_64 := 0x1_0000_0000_0000_0000
  /** The largest value of Go's `int` on a 64-bit machine; also the largest slice length. */
  const MAX_INT := 0x7FFF_FFFF_FFFF_FFFF

  const U16_MAX := 0xFFFF
  const U128_MAX: nat := 0xFFFF_FFFF_FFFF_FFFF_FFFF_FFFF_FFFF_FFFF

  type Uint16 = x: int | 0 <= x <= U16_MAX
  type Uint64 = x: int | 0 <= x < TWO_64
  type Uint32 = x: int | 0 <= x < TWO_32
  type SInt32 = x: int | -0x8000_0000 <= x < 0x8000_0000

  /** The bytes of a text. */
  function Ascii(s: string): Bytes { seq(|s|, i requires 0 <= i < |s| => s[i] as int % 256) }

  datatype Option<+T> = None | Some(value: T)

  /** `x << n` without losing bits; Shl(1, n) is two to the n. */
  function Shl(x: nat, n: nat): (r: nat)
    ensures x > 0 ==> r > 0
  {
    if n == 0 then x else 2 * Shl(x, n - 1)
  }

  /** The lowest `width` bits of x: what a word of that width keeps. */
  function Low(x: nat, width: nat): nat
  {
    if width == 0 then 0 else x % 2 + 2 * Low(x / 2, width - 1)
  }

  /** Bitwise "or". */
  function BitOr(x: nat, y: nat): nat
  {
    if x == 0 then y
    else if y == 0 then x
    else (if x % 2 == 1 || y % 2 == 1 then 1 else 0) + 2 * BitOr(x / 2, y / 2)
  }

  lemma ShlFour(x: nat, n: nat)
    ensures Shl(x, n + 4) == 16 * Shl(x, n)
  {
    assert Shl(x, n + 1) == 2 * Shl(x, n);
    assert Shl(x, n + 2) == 2 * Shl(x, n + 1);
    assert Shl(x, n + 3) == 2 * Shl(x, n + 2);
  }

  lemma ShlDigit(x: nat, n: nat)
    ensures Shl(x, n + 7) == 128 * Shl(x, n)
  {
    ShlFour(x, n);
    ShlFour(x, n + 4);
    assert Shl(x, n + 8) == 2 * Shl(x, n + 7);
  }

  /** "Or" is addition when the operands occupy different bits. */
  lemma {:induction false} BitOrDisjoint(x: nat, y: nat, k: nat)
    requires x < Shl(1, k)
    ensures BitOr(x, Shl(y, k)) == x + Shl(y, k)
  {
    if k > 0 && x > 0 {
      BitOrDisjoint(x / 2, y, k - 1);
    }
  }

  lemma {:induction false} LowOfOr(x: nat, y: nat, width: nat)
    ensures BitOr(Low(x, width), Low(y, width)) == Low(BitOr(x, y), width)
  {
    if width > 0 {
      LowOfOr(x / 2, y / 2, width - 1);
      OrHalves(x, y);
      OrHalves(Low(x, width), Low(y, width));
    }
  }

  lemma OrHalves(x: nat, y: nat)
    ensures BitOr(x, y) / 2 == BitOr(x / 2, y / 2)
    ensures BitOr(x, y) % 2 == if x % 2 == 1 || y % 2 == 1 then 1 else 0
  {
  }

  /** One round of the varint loops: or-ing the next digit into a `width`-bit
      accumulator keeps it equal to the number read so far, cut to `width` bits. */
  lemma OrDigit(low: nat, digit: nat, shift: nat, width: nat)
    requires low < Shl(1, shift)
    ensures BitOr(Low(low, width), Low(Shl(digit, shift), width)) == Low(low + Shl(digit, shift), width)
  {
    LowOfOr(low, Shl(digit, shift), width);
    BitOrDisjoint(low, digit, shift);
  }

  /** Truncation is the remainder by a power of two. */
  lemma {:induction false} LowIsMod(x: nat, width: nat)
    ensures Low(x, width) == x % Shl(1, width)
  {
    if width > 0 {
      LowIsMod(x / 2, width - 1);
      ModTwice(x, Shl(1, width - 1));
    }
  }

  lemma ModTwice(x: nat, p: nat)
    requires p > 0
    ensures x % (2 * p) == x % 2 + 2 * (x / 2 % p)
  {
    var q, r := x / 2 / p, x / 2 % p;
    assert x / 2 == p * q + r;
    DivModUnique(x, 2 * p, q, x % 2 + 2 * r);
  }

  lemma MulMonotone(w: nat, a: int, b: int)
    requires a <= b
    ensures w * a <= w * b
  {
  }

  lemma DivModUnique(a: nat, w: nat, q: nat, r: nat)
    requires w > 0 && r < w && a == w * q + r
    ensures a / w == q && a % w == r
  {
    var q' := a / w;
    if q' < q {
      MulMonotone(w, q' + 1, q);
      assert false;
    } else if q' > q {
      MulMonotone(w, q + 1, q');
      assert false;
    }
  }

  lemma ShlHalfWord(x: nat, n: nat)
    ensures Shl(x, n + 16) == 0x1_0000 * Shl(x, n)
  {
    ShlFour(x, n);
    ShlFour(x, n + 4);
    ShlFour(x, n + 8);
    ShlFour(x, n + 12);
  }

  lemma PowersOfTwo()
    ensures Shl(1, 32) == TWO_32 && Shl(1, 64) == TWO_64
  {
    ShlHalfWord(1, 0);
    ShlHalfWord(1, 16);
    ShlHalfWord(1, 32);
    ShlHalfWord(1, 48);
  }

  /** Reading a 64-bit (32-bit) pattern as a signed integer. */
  function Int64(bits: nat): int
  {
    if bits % TWO_64 <= MAX_INT then bits % TWO_64 else bits % TWO_64 - TWO_64
  }

  function Int32(bits: nat): SInt32
  {
    if bits % TWO_32 < 0x8000_0000 then bits % TWO_32 else bits % TWO_32 - TWO_32
  }

  /** Signed 64-bit addition of two values that are already `int`s: wraps past MAX_INT. */
  function AddInt(x: int, y: int): int
  {
    if x + y > MAX_INT then x + y - TWO_64
    else if x + y < -MAX_INT - 1 then x + y + TWO_64
    else x + y
  }
}
