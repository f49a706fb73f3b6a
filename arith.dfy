// Integer helpers shared by the byte codecs: bytes, powers of 256,
// big- and little-endian values, C's truncating division and a
// bitwise or on naturals.
module Arith {

  /** An 8-bit unsigned value (`uint8_t`). */
  type Byte = x: int | 0 <= x < 256

  const U16: int := 0x1_0000
  const U32: int := 0x1_0000_0000
  const U64: int := 0x1_0000_0000_0000_0000

  function Pow256(n: nat): (r: nat)
    ensures r >= 1
  {
    if n == 0 then 1 else 256 * Pow256(n - 1)
  }

  function Pow2(n: nat): (r: nat)
    ensures r >= 1
  {
    if n == 0 then 1 else 2 * Pow2(n - 1)
  }

  lemma Pow256Mono(m: nat, n: nat)
    requires m <= n
    ensures Pow256(m) <= Pow256(n)
  {
  }

  lemma Pow256At8()
    ensures Pow256(8) == U64
  {
  }

  /** Value of a byte string read most-significant byte first. */
  function BeValue(s: seq<Byte>): nat
  {
    if s == [] then 0 else BeValue(s[..|s| - 1]) * 256 + s[|s| - 1]
  }

  /** Value of a byte string read least-significant byte first. */
  function LeValue(s: seq<Byte>): nat
  {
    if s == [] then 0 else s[0] + 256 * LeValue(s[1..])
  }

  lemma {:induction false} BeValueBound(s: seq<Byte>)
    ensures BeValue(s) < Pow256(|s|)
  {
    if s != [] {
      BeValueBound(s[..|s| - 1]);
    }
  }

  lemma {:induction false} LeValueBound(s: seq<Byte>)
    ensures LeValue(s) < Pow256(|s|)
  {
    if s != [] {
      LeValueBound(s[1..]);
    }
  }

  /** `n % m` is determined by any decomposition `n == q * m + r` with `0 <= r < m`. */
  lemma ModUnique(n: int, m: int, q: int, r: int)
    requires m > 0 && n == q * m + r && 0 <= r < m
    ensures n % m == r && n / m == q
  {
    var q', r' := n / m, n % m;
    assert (q - q') * m == r' - r;
    MulSmall(q - q', m);
  }

  lemma MulSmall(d: int, m: int)
    requires m > 0 && -m < d * m < m
    ensures d == 0
  {
  }

  /** Adding a multiple of the modulus does not change the remainder. */
  lemma ModShift(a: int, k: int, m: int)
    requires m > 0
    ensures (a + k * m) % m == a % m
  {
    ModUnique(a, m, a / m, a % m);
    ModUnique(a + k * m, m, a / m + k, a % m);
  }

  lemma DivDiv(a: nat, b: nat, c: nat)
    requires b > 0 && c > 0
    ensures a / (b * c) == (a / b) / c
  {
    var q, r := a / b, a % b;
    var q2, r2 := q / c, q % c;
    assert a == q * b + r;
    assert q == q2 * c + r2;
    MulAddBelow(q2, c, r2, b, r);
    ModUnique(a, b * c, q2, r2 * b + r);
  }

  /** (q c + s) b + r == q (b c) + (s b + r), and s b + r < b c when s < c and r < b. */
  lemma MulAddBelow(q: int, c: int, s: int, b: int, r: int)
    requires 0 <= s < c && 0 <= r < b
    ensures (q * c + s) * b + r == q * (b * c) + (s * b + r)
    ensures s * b + r < b * c
  {
    assert (q * c + s) * b == q * c * b + s * b;
    assert s * b <= (c - 1) * b by {
      MulLe(s, c - 1, b);
    }
  }

  /** One more multiple of z still fits below y multiples when x < y. */
  lemma MulNextLe(x: int, y: int, z: int)
    requires x < y && z >= 0
    ensures x * z + z <= y * z
  {
    MulLe(x + 1, y, z);
    assert (x + 1) * z == x * z + z;
  }

  lemma MulLe(x: int, y: int, z: int)
    requires x <= y && z >= 0
    ensures x * z <= y * z
  {
  }

  lemma ModMod(a: nat, b: nat, c: nat)
    requires b > 0 && c > 0
    ensures (a % (b * c)) % b == a % b
  {
    var q, r := a / (b * c), a % (b * c);
    assert a == q * (b * c) + r;
    var q', r' := r / b, r % b;
    assert r == q' * b + r';
    assert a == (q * c + q') * b + r' by {
      calc {
        a;
        q * (b * c) + q' * b + r';
        (q * c) * b + q' * b + r';
        (q * c + q') * b + r';
      }
    }
    ModUnique(a, b, q * c + q', r');
  }

  /** Shifting one more byte into a 64-bit register that wraps. */
  lemma ShiftInByte(a: nat, b: Byte)
    ensures ((a % U64) * 256) % U64 + b == (a * 256 + b) % U64
  {
    var q, r := a / U64, a % U64;
    var w := U64 / 256;
    assert a == q * U64 + r;
    var q2, r2 := r / w, r % w;
    assert r == q2 * w + r2;
    assert r * 256 == q2 * U64 + r2 * 256;
    ModUnique(r * 256, U64, q2, r2 * 256);
    assert a * 256 + b == (q * 256 + q2) * U64 + (r2 * 256 + b);
    ModUnique(a * 256 + b, U64, q * 256 + q2, r2 * 256 + b);
  }

  /** `(k * M + y) % M == y % M` for the 64-bit modulus. */
  lemma ModAddMultiple(k: int, y: int)
    ensures (k * U64 + y) % U64 == y % U64
  {
    ModUnique(k * U64 + y, U64, k + y / U64, y % U64);
  }

  /** Division as C99 defines it: the quotient is truncated toward zero. */
  function CDiv(a: int, b: int): (q: int)
    requires b != 0
    ensures (a >= 0 && b > 0) ==> q == a / b
  {
    if a >= 0 && b > 0 then a / b
    else if a < 0 && b > 0 then -((-a) / b)
    else if a >= 0 then -(a / (-b))
    else (-a) / (-b)
  }

  /** Remainder as C99 defines it: `a == CDiv(a, b) * b + CRem(a, b)`, sign of `a`. */
  function CRem(a: int, b: int): (r: int)
    requires b != 0
  {
    a - CDiv(a, b) * b
  }

  /** With a non-negative dividend and a positive divisor, C's remainder is the usual one. */
  lemma CRemNonneg(a: int, b: int)
    requires a >= 0 && b > 0
    ensures CRem(a, b) == a % b
  {
  }

  /** C's remainder is smaller than the divisor in magnitude and takes the sign of the dividend. */
  lemma CRemBound(a: int, b: int)
    requires b > 0
    ensures -b < CRem(a, b) < b
    ensures a >= 0 ==> CRem(a, b) >= 0
    ensures a <= 0 ==> CRem(a, b) <= 0
  {
    if a < 0 {
      var q, r := (-a) / b, (-a) % b;
      assert -a == q * b + r;
      assert CRem(a, b) == -r;
    }
  }

  /** A value taken modulo 2^32 and read as a signed 32-bit integer. */
  function ToInt32(x: int): (r: int)
    ensures -0x8000_0000 <= r < 0x8000_0000
    ensures (r - x) % U32 == 0
  {
    var m := x % U32;
    if m >= 0x8000_0000 then m - U32 else m
  }

  /** A value taken modulo 2^64 and read as a signed 64-bit integer. */
  function ToInt64(x: int): (r: int)
    ensures -0x8000_0000_0000_0000 <= r < 0x8000_0000_0000_0000
    ensures (r - x) % U64 == 0
  {
    var m := x % U64;
    if m >= 0x8000_0000_0000_0000 then m - U64 else m
  }

  /** Bitwise or of two naturals, one bit at a time. */
  function BitOr(a: nat, b: nat): nat
  {
    if a == 0 then b
    else if b == 0 then a
    else 2 * BitOr(a / 2, b / 2) + (if a % 2 == 1 || b % 2 == 1 then 1 else 0)
  }

  /** When `b` fits below the low zero bits of `a`, or-ing is adding. */
  lemma {:induction false} BitOrDisjoint(a: nat, b: nat, k: nat)
    requires a % Pow2(k) == 0 && b < Pow2(k)
    ensures BitOr(a, b) == a + b
  {
    if a == 0 || b == 0 {
    } else {
      assert k > 0;
      assert Pow2(k) == 2 * Pow2(k - 1);
      ModMod(a, 2, Pow2(k - 1));
      assert a % 2 == 0;
      var a2 := a / 2;
      assert a == 2 * a2;
      ModUnique(a, 2 * Pow2(k - 1), (a / Pow2(k)), 0);
      assert a2 % Pow2(k - 1) == 0 by {
        ModUnique(a2, Pow2(k - 1), a / Pow2(k), 0);
      }
      BitOrDisjoint(a2, b / 2, k - 1);
    }
  }

  lemma {:induction false} BitOrComm(a: nat, b: nat)
    ensures BitOr(a, b) == BitOr(b, a)
  {
    if a != 0 && b != 0 {
      BitOrComm(a / 2, b / 2);
    }
  }

  /** Or-ing two values below 2^k stays below 2^k. */
  lemma {:induction false} BitOrBound(a: nat, b: nat, k: nat)
    requires a < Pow2(k) && b < Pow2(k)
    ensures BitOr(a, b) < Pow2(k)
  {
    if a == 0 || b == 0 {
    } else {
      assert k > 0;
      BitOrBound(a / 2, b / 2, k - 1);
    }
  }

  lemma Pow2At32()
    ensures Pow2(32) == U32
  {
    assert Pow2(8) == 256;
    assert Pow2(16) == 65536;
    assert Pow2(24) == 0x100_0000;
  }
}
