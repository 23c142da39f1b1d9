/** 32-bit machine words and the arithmetic both simulators perform on them.

    A word is kept as its unsigned bit pattern, an integer in [0, 2^32).
    The C code holds words as `uint32_t` (project1) or `int32_t` (project2);
    `Signed` gives the two's-complement reading of the same bits, and
    `Wrap` reduces an exact result modulo 2^32, which is what the C
    arithmetic does on these values. */
module Word32 {

  const TWO32: int := 0x1_0000_0000

  type Word = w: int | 0 <= w < 0x1_0000_0000

  /** Reduce an exact integer to the 32-bit pattern with the same low bits. */
  function Wrap(x: int): (r: Word)
    ensures (x - r) % TWO32 == 0
    ensures 0 <= x < TWO32 ==> r == x
  {
    x % TWO32
  }

  /** The two's-complement value of a word (the `int32_t` view). */
  function Signed(w: Word): (r: int)
    ensures -0x8000_0000 <= r < 0x8000_0000
    ensures Wrap(r) == w
    ensures r >= 0 <==> w < 0x8000_0000
  {
    if w < 0x8000_0000 then w else w - TWO32
  }

  function Pow2(n: nat): (r: int)
    ensures r >= 1
  {
    if n == 0 then 1 else 2 * Pow2(n - 1)
  }

  /** Bitwise and of two words (C `&`). */
  function And(a: Word, b: Word): Word
  {
    ((a as bv32) & (b as bv32)) as int
  }

  /** Bitwise or of two words (C `|`). */
  function Or(a: Word, b: Word): Word
  {
    ((a as bv32) | (b as bv32)) as int
  }

  lemma {:induction false} Pow2Is2To32()
    ensures Pow2(32) == TWO32
  {
    assert Pow2(8) == 256;
    assert Pow2(16) == 0x1_0000;
    assert Pow2(24) == 0x100_0000;
  }

  lemma {:induction false} Pow2Add(a: nat, b: nat)
    ensures Pow2(a + b) == Pow2(a) * Pow2(b)
    decreases a
  {
    if a > 0 {
      Pow2Add(a - 1, b);
    }
  }

  /** `a << n` on a 32-bit value, for a shift amount the C code defines:
      the low n bits of the result are clear and the bits above them are
      the low 32 - n bits of `a`; the top n bits of `a` are lost. */
  function ShiftLeft(a: Word, n: int): (r: Word)
    requires 0 <= n < 32
    ensures r == Wrap(a * Pow2(n))
    ensures r % Pow2(n) == 0 && r / Pow2(n) == a % Pow2(32 - n)
  {
    ShiftLeftBits(a, n);
    (a * Pow2(n)) % TWO32
  }

  /** Multiplying by 2^n and reducing modulo 2^32 keeps the low 32 - n bits. */
  lemma {:induction false} ShiftLeftBits(a: Word, n: nat)
    requires n < 32
    ensures (a * Pow2(n)) % TWO32 % Pow2(n) == 0
    ensures (a * Pow2(n)) % TWO32 / Pow2(n) == a % Pow2(32 - n)
  {
    Pow2Add(n, 32 - n);
    Pow2Is2To32();
    MulModSplit(a, Pow2(n), Pow2(32 - n));
  }

  /** With `N == p * q`, `(a * p) % N` is `(a % q) * p`. */
  lemma {:induction false} MulModSplit(a: int, p: int, q: int)
    requires a >= 0 && p >= 1 && q >= 1
    ensures (a * p) % (p * q) % p == 0
    ensures (a * p) % (p * q) / p == a % q
  {
    var h, l := a / q, a % q;
    assert a * p == h * (p * q) + l * p by {
      assert a == h * q + l;
      assert a * p == (h * q + l) * p;
    }
    MulMono(l, q - 1, p);
    assert (q - 1) * p == p * q - p;
    DivModUnique(a * p, p * q, h, l * p);
    DivModUnique(l * p, p, l, 0);
  }

  /** Arithmetic `a >> n` on the `int32_t` reading of `a`: the quotient
      rounded towards minus infinity, as a shift of two's-complement bits. */
  function ShiftRightArith(a: Word, n: int): (r: Word)
    requires 0 <= n < 32
    ensures Signed(a) >= 0 ==> r == a / Pow2(n)
  {
    DivBounds(Signed(a), Pow2(n));
    Wrap(Signed(a) / Pow2(n))
  }

  lemma {:induction false} MulAtLeast(m: int, b: int)
    requires m >= 1 && b > 0
    ensures m * b >= b
  {
  }

  lemma {:induction false} DivBounds(x: int, p: int)
    requires p >= 1
    ensures x >= 0 ==> 0 <= x / p <= x
  {
    var q := x / p;
    if x >= 0 && q > x {
      MulAtLeast(p, q);
    }
  }

  /** Euclidean division is determined by quotient and remainder. */
  lemma {:induction false} DivModUnique(x: int, b: int, q: int, r: int)
    requires 0 < b && 0 <= r < b && x == q * b + r
    ensures x / b == q && x % b == r
  {
    var q', r' := x / b, x % b;
    assert (q - q') * b == r' - r;
    if q > q' {
      MulAtLeast(q - q', b);
    } else if q < q' {
      MulAtLeast(q' - q, b);
    }
  }

  /** A 5-bit field `f` sitting above `lo` (which is below `k`) is read back by `w / k % 32`. */
  lemma {:induction false} FieldAt(w: int, k: int, lo: int, f: int, hi: int)
    requires 0 < k && 0 <= lo < k && 0 <= f < 32 && w == lo + k * (f + 32 * hi)
    ensures w / k % 32 == f && w / k == f + 32 * hi
  {
    DivModUnique(w, k, f + 32 * hi, lo);
    DivModUnique(f + 32 * hi, 32, hi, f);
  }

  /** Dividing by 2^(n+1) is dividing by 2^n and then by 2. */
  lemma {:induction false} DivPow2Succ(x: int, n: nat)
    requires x >= 0
    ensures x / Pow2(n + 1) == x / Pow2(n) / 2
  {
    var p := Pow2(n);
    var q, r := x / p, x % p;
    var q2, r2 := q / 2, q % 2;
    assert x == q * p + r;
    assert q == 2 * q2 + r2;
    assert x == q2 * (2 * p) + (r2 * p + r) by {
      assert q * p == (2 * q2 + r2) * p;
    }
    if r2 == 0 {
      DivModUnique(x, 2 * p, q2, r);
    } else {
      DivModUnique(x, 2 * p, q2, p + r);
    }
  }

  /** Euclidean division of a negative number by a positive one rounds
      towards minus infinity and does not pass the dividend. */
  lemma {:induction false} DivNegBounds(x: int, p: int)
    requires p >= 1 && x < 0
    ensures x <= x / p < 0
  {
    var q := x / p;
    assert x == q * p + x % p;
    MulMono(0, q, p);
    MulMono(q, x - 1, p);
    MulMono(1, p, -x);
  }

  lemma {:induction false} MulMono(a: int, b: int, p: int)
    requires p >= 1
    ensures a <= b ==> a * p <= b * p
  {
    if a < b {
      MulAtLeast(b - a, p);
      assert b * p - a * p == (b - a) * p;
    }
  }

  /** `>>` on the `int32_t` reading is arithmetic: read as signed, the
      result is the quotient rounded down, so the sign bit is replicated. */
  lemma {:induction false} ShiftRightArithSigned(a: Word, n: int)
    requires 0 <= n < 32
    ensures Signed(ShiftRightArith(a, n)) == Signed(a) / Pow2(n)
    ensures Signed(ShiftRightArith(a, n)) < 0 <==> Signed(a) < 0
  {
    var x := Signed(a);
    if x >= 0 {
      DivBounds(x, Pow2(n));
    } else {
      DivNegBounds(x, Pow2(n));
      assert ShiftRightArith(a, n) == x / Pow2(n) + TWO32;
    }
  }

  /** `<<` ignores how the bits are read: shifting the signed value gives
      the same 32 bits as shifting the unsigned one. */
  lemma {:induction false} ShiftLeftSignFree(a: Word, n: int)
    requires 0 <= n < 32
    ensures ShiftLeft(a, n) == Wrap(Signed(a) * Pow2(n))
  {
    if a >= 0x8000_0000 {
      var p := Pow2(n);
      assert Signed(a) * p == a * p - TWO32 * p;
      ModShift(a * p, p);
    }
  }

  /** Subtracting a multiple of 2^32 does not change the low 32 bits. */
  lemma {:induction false} ModShift(x: int, k: int)
    ensures (x - TWO32 * k) % TWO32 == x % TWO32
  {
    DivModUnique(x - TWO32 * k, TWO32, x / TWO32 - k, x % TWO32);
  }

  /** Wrapping an intermediate sum first does not change the wrapped total. */
  lemma {:induction false} WrapAdd(x: int, y: int)
    ensures Wrap(Wrap(x) + y) == Wrap(x + y)
  {
    ModShift(x + y, x / TWO32);
  }
}
