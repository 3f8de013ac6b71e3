/** Fixed-width integers of the 68k target, and the few arithmetic facts the other modules share. */
module Machine {
  type Byte = n: int | 0 <= n < 0x100
  type Word = n: int | 0 <= n < 0x1_0000
  type ULong = n: int | 0 <= n < 0x1_0000_0000

  datatype Option<+T> = None | Some(value: T)

  /** The conversion to ULONG, and the wrap-around of every ULONG operation. */
  function ToULong(n: int): ULong {
    n % 0x1_0000_0000
  }

  /** The conversion from ULONG to the signed LONG. */
  function ToLong(n: ULong): int {
    if n < 0x8000_0000 then n else n - 0x1_0000_0000
  }

  function Pow2(k: nat): (p: nat)
    ensures p >= 1
  {
    if k == 0 then 1 else 2 * Pow2(k - 1)
  }

  lemma {:induction false} Pow2Add(j: nat, k: nat)
    ensures Pow2(j + k) == Pow2(j) * Pow2(k)
  {
    if k == 0 {
    } else {
      Pow2Add(j, k - 1);
      assert Pow2(j + k) == 2 * Pow2(j + k - 1);
    }
  }

  lemma MulAssoc(x: int, y: int, z: int)
    ensures x * (y * z) == (x * y) * z
  {}

  lemma MulDistrib(x: int, y: int, z: int)
    ensures x * (y + z) == x * y + x * z
  {}

  lemma MulMonotone(a: int, b: int, c: nat)
    requires a <= b
    ensures a * c <= b * c
  {}

  lemma MulAtLeast(k: int, d: int)
    requires k >= 1 && d > 0
    ensures k * d >= d
  {}

  lemma QuotientUnique(d: int, q: int, r: int, q': int, r': int)
    requires 0 <= r < d && 0 <= r' < d && q * d + r == q' * d + r'
    ensures q == q' && r == r'
  {
    assert (q - q') * d == r' - r;
    assert (q' - q) * d == r - r';
    if q > q' {
      MulAtLeast(q - q', d);
    } else if q < q' {
      MulAtLeast(q' - q, d);
    }
  }

  lemma DivMod(x: int, d: int)
    requires d > 0
    ensures x == (x / d) * d + x % d && 0 <= x % d < d
  {}

  lemma ModUnique(x: int, d: int, q: int, r: int)
    requires d > 0 && 0 <= r < d && x == q * d + r
    ensures x % d == r && x / d == q
  {
    DivMod(x, d);
    QuotientUnique(d, q, r, x / d, x % d);
  }

  /** Adding a multiple of the divisor does not change the remainder. */
  lemma ModAddMultiple(x: int, q: int, d: int)
    requires d > 0
    ensures (x + q * d) % d == x % d
  {
    DivMod(x, d);
    ghost var k := x / d;
    assert (k + q) * d == k * d + q * d;
    ModUnique(x + q * d, d, k + q, x % d);
  }

  /** Every positive number is a power of two times an odd number. */
  lemma {:induction false} OddPart(p: nat) returns (j: nat, q: nat)
    requires p > 0
    ensures p == Pow2(j) * (2 * q + 1)
  {
    if p % 2 == 1 {
      j, q := 0, p / 2;
    } else {
      var j', q' := OddPart(p / 2);
      j, q := j' + 1, q';
      assert p == 2 * (Pow2(j') * (2 * q + 1));
      MulAssoc(2, Pow2(j'), 2 * q + 1);
    }
  }
}
