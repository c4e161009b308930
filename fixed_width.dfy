/** Python's unbounded integers as the keystream generator uses them: the
    bitwise operators on (possibly negative) integers, shifts, masks, and the
    normalisation `to_signed_32` (xh_scraper.py:14-16).  Beside it sits
    `ToInt32`, the 32-bit signed normalisation of JavaScript, which serves
    as the reference model the generator is compared against. */
module FixedWidth {

  const TWO32: int := 0x1_0000_0000
  const TWO31: int := 0x8000_0000

  /** 2^k.  Whole bytes are peeled off first, so a constant such as
      `Pow2(32)` unfolds in a few steps; `Pow2Split` gives the bit-by-bit
      recurrence. */
  function Pow2(k: nat): (r: nat)
    ensures r >= 1
  {
    if k >= 8 then 256 * Pow2(k - 8)
    else if k == 0 then 1
    else 2 * Pow2(k - 1)
  }

  function Abs(x: int): nat { if x < 0 then -x else x }

  /** Two integers agree in their low 32 bits. */
  predicate Cong32(a: int, b: int) { a % TWO32 == b % TWO32 }

  // ---------------------------------------------------------------------
  // to_signed_32 and the JavaScript reference normalisation
  // ---------------------------------------------------------------------

  /** Python's `a % b`, whose result has the sign of `b`. */
  function PyMod(a: int, b: int): int
    requires b != 0
  {
    if b > 0 then a % b
    else var m := a % -b; if m == 0 then 0 else m + b
  }

  /** `to_signed_32(n)`: `n % ((-1 if n < 0 else 1) * 2 ** 32)`.  It keeps
      the residue of `n` modulo 2^32 and the sign of `n`; the result is not
      confined to the signed 32-bit range. */
  function ToSigned32(n: int): (r: int)
    ensures Cong32(r, n)
    ensures n >= 0 ==> 0 <= r < TWO32
    ensures n < 0 ==> -TWO32 < r <= 0
  {
    if n < 0 then -((-n) % TWO32) else n % TWO32
  }

  /** The body of `ToSigned32` divides by the constant 2^32 only; this is
      the source's expression, Python's `%` by a divisor carrying the sign
      of `n`. */
  lemma ToSigned32IsPyMod(n: int)
    ensures ToSigned32(n) == PyMod(n, if n < 0 then -TWO32 else TWO32)
  {
    if n < 0 {
      var m := n % TWO32;
      var q := n / TWO32;
      assert n == q * TWO32 + m;
      if m == 0 {
        DivModUnique(-n, TWO32, -q, 0);
      } else {
        DivModUnique(-n, TWO32, -q - 1, TWO32 - m);
      }
    }
  }

  /** JavaScript's ToInt32 (`x | 0`): the low 32 bits read as two's
      complement. */
  function ToInt32(n: int): (r: int)
    ensures Cong32(r, n)
    ensures -TWO31 <= r < TWO31
  {
    var m := n % TWO32;
    if m < TWO31 then m else m - TWO32
  }

  /** `to_signed_32` leaves the signed 32-bit range: 2^31 is its own image,
      while a true int32 normalisation maps it to -2^31. */
  lemma ToSigned32LeavesInt32Range()
    ensures ToSigned32(TWO31) == TWO31 && ToInt32(TWO31) == -TWO31
    ensures ToSigned32(-1) == -1 && ToSigned32(-TWO31 - 1) == -TWO31 - 1
  {
  }

  /** Two normalisations that keep the residue agree once both are read
      modulo 2^32: the signed reading of `to_signed_32(n)` is `ToInt32(n)`. */
  lemma ToSigned32AsInt32(n: int)
    ensures ToInt32(ToSigned32(n)) == ToInt32(n)
  {
  }

  // ---------------------------------------------------------------------
  // Python bitwise operators on unbounded integers
  // ---------------------------------------------------------------------

  /** `a << k` */
  function Shl(a: int, k: nat): int { a * Pow2(k) }

  /** `a >> k` (an arithmetic shift: floor division by 2^k) */
  function Shr(a: int, k: nat): int { a / Pow2(k) }

  /** `a & (2**k - 1)`; see `LowIsAnd` for the link with `And`. */
  function Low(a: int, k: nat): (r: int)
    ensures 0 <= r < Pow2(k)
  {
    a % Pow2(k)
  }

  lemma HalfShrinks(a: int)
    ensures Abs(a / 2) <= Abs(a)
    ensures a != 0 && a != -1 ==> Abs(a / 2) < Abs(a)
  {
  }

  /** `a ^ b` on two's-complement integers of unbounded width. */
  function Xor(a: int, b: int): int
    decreases Abs(a) + Abs(b)
  {
    if -1 <= a <= 0 && -1 <= b <= 0 then
      (if a == b then 0 else -1)
    else
      HalfShrinks(a); HalfShrinks(b);
      2 * Xor(a / 2, b / 2) + (a % 2 + b % 2) % 2
  }

  /** `a | b` on two's-complement integers of unbounded width. */
  function Or(a: int, b: int): int
    decreases Abs(a) + Abs(b)
  {
    if -1 <= a <= 0 && -1 <= b <= 0 then
      (if a == 0 && b == 0 then 0 else -1)
    else
      HalfShrinks(a); HalfShrinks(b);
      2 * Or(a / 2, b / 2) + (if a % 2 == 1 || b % 2 == 1 then 1 else 0)
  }

  /** `a & b` on two's-complement integers of unbounded width. */
  function And(a: int, b: int): int
    decreases Abs(a) + Abs(b)
  {
    if -1 <= a <= 0 && -1 <= b <= 0 then
      (if a == -1 && b == -1 then -1 else 0)
    else
      HalfShrinks(a); HalfShrinks(b);
      2 * And(a / 2, b / 2) + (if a % 2 == 1 && b % 2 == 1 then 1 else 0)
  }

  // One step of each operator, valid on every input (the sign-extension
  // base case included).

  lemma XorUnfold(a: int, b: int)
    ensures Xor(a, b) == 2 * Xor(a / 2, b / 2) + (a % 2 + b % 2) % 2
  {
  }

  lemma OrUnfold(a: int, b: int)
    ensures Or(a, b) == 2 * Or(a / 2, b / 2) + (if a % 2 == 1 || b % 2 == 1 then 1 else 0)
  {
  }

  lemma AndUnfold(a: int, b: int)
    ensures And(a, b) == 2 * And(a / 2, b / 2) + (if a % 2 == 1 && b % 2 == 1 then 1 else 0)
  {
  }

  // ---------------------------------------------------------------------
  // Modular arithmetic
  // ---------------------------------------------------------------------

  lemma MulAtLeast(d: int, n: int)
    requires d >= 1 && n > 0
    ensures d * n >= n
  {
  }

  lemma MulSub(a: int, b: int, n: int)
    ensures a * n - b * n == (a - b) * n
  {
  }

  /** Euclidean division is determined by its defining equation. */
  lemma DivModUnique(x: int, n: int, q: int, r: int)
    requires n > 0 && 0 <= r < n && x == q * n + r
    ensures x / n == q && x % n == r
  {
    var q', r' := x / n, x % n;
    assert x == q' * n + r';
    MulSub(q, q', n);
    if q > q' {
      MulAtLeast(q - q', n);
    } else if q < q' {
      MulAtLeast(q' - q, n);
    }
  }

  lemma ModOfMultiple(x: int, t: int, n: int)
    requires n > 0
    ensures (x + t * n) % n == x % n
  {
    DivModUnique(x + t * n, n, x / n + t, x % n);
  }

  /** Equal residues differ by a multiple of the modulus. */
  lemma CongDiff(a: int, b: int, n: int)
    requires n > 0 && a % n == b % n
    ensures a - b == (a / n - b / n) * n
  {
  }

  lemma CongMul(a: int, b: int, c: int, n: int)
    requires n > 0 && a % n == b % n
    ensures (a * c) % n == (b * c) % n
  {
    CongDiff(a, b, n);
    var t := a / n - b / n;
    assert a * c == b * c + (t * c) * n;
    ModOfMultiple(b * c, t * c, n);
  }

  lemma CongAdd(a: int, b: int, c: int, d: int, n: int)
    requires n > 0 && a % n == b % n && c % n == d % n
    ensures (a + c) % n == (b + d) % n
  {
    CongDiff(a, b, n);
    CongDiff(c, d, n);
    var t := (a / n - b / n) + (c / n - d / n);
    assert a + c == b + d + t * n;
    ModOfMultiple(b + d, t, n);
  }

  lemma {:induction false} Pow2Split(k: nat)
    requires k > 0
    ensures Pow2(k) == 2 * Pow2(k - 1)
    decreases k
  {
    if k > 8 {
      Pow2Split(k - 8);
      assert Pow2(k - 1) == 256 * Pow2(k - 9);
    } else if k == 8 {
      assert Pow2(7) == 128;
    }
  }

  /** Agreement modulo 2n is agreement of the low bit and of the halves
      modulo n. */
  lemma CongHalves(a: int, b: int, n: int)
    requires n >= 1 && a % (2 * n) == b % (2 * n)
    ensures a % 2 == b % 2 && (a / 2) % n == (b / 2) % n
  {
    CongDiff(a, b, 2 * n);
    var t := a / (2 * n) - b / (2 * n);
    assert a == b + (t * n) * 2;
    ModOfMultiple(b, t * n, 2);
    DivModUnique(a, 2, b / 2 + t * n, b % 2);
    assert a / 2 == b / 2 + t * n;
    ModOfMultiple(b / 2, t, n);
  }

  /** Agreement modulo 2^(k+1) is agreement of the low bit and of the
      halves modulo 2^k. */
  lemma CongHalf(a: int, b: int, k: nat)
    requires a % Pow2(k + 1) == b % Pow2(k + 1)
    ensures a % 2 == b % 2
    ensures (a / 2) % Pow2(k) == (b / 2) % Pow2(k)
  {
    Pow2Split(k + 1);
    CongHalves(a, b, Pow2(k));
  }

  lemma CongDoubles(x: int, y: int, c: int, n: int)
    requires n >= 1 && x % n == y % n
    ensures (2 * x + c) % (2 * n) == (2 * y + c) % (2 * n)
  {
    CongDiff(x, y, n);
    var t := x / n - y / n;
    assert 2 * x + c == 2 * y + c + t * (2 * n);
    ModOfMultiple(2 * y + c, t, 2 * n);
  }

  lemma CongDouble(x: int, y: int, c: int, k: nat)
    requires x % Pow2(k) == y % Pow2(k)
    ensures (2 * x + c) % Pow2(k + 1) == (2 * y + c) % Pow2(k + 1)
  {
    Pow2Split(k + 1);
    CongDoubles(x, y, c, Pow2(k));
  }

  /** Agreement modulo m*f implies agreement modulo m. */
  lemma CongFactor(a: int, b: int, m: int, f: int)
    requires m > 0 && f > 0 && a % (m * f) == b % (m * f)
    ensures a % m == b % m
  {
    CongDiff(a, b, m * f);
    var t := a / (m * f) - b / (m * f);
    assert a - b == t * (m * f);
    assert a == b + (t * f) * m;
    ModOfMultiple(b, t * f, m);
  }

  /** Agreement in the low k bits implies agreement in the low j <= k bits. */
  lemma CongWeaken(a: int, b: int, j: nat, k: nat)
    requires j <= k && a % Pow2(k) == b % Pow2(k)
    ensures a % Pow2(j) == b % Pow2(j)
  {
    Pow2Add(j, k - j);
    CongFactor(a, b, Pow2(j), Pow2(k - j));
  }

  // ---------------------------------------------------------------------
  // The bitwise operators respect agreement in the low k bits
  // ---------------------------------------------------------------------

  lemma {:induction false} XorLowBits(a: int, b: int, c: int, d: int, k: nat)
    requires a % Pow2(k) == c % Pow2(k) && b % Pow2(k) == d % Pow2(k)
    ensures Xor(a, b) % Pow2(k) == Xor(c, d) % Pow2(k)
    decreases k
  {
    if k > 0 {
      var j := k - 1;
      CongHalf(a, c, j);
      CongHalf(b, d, j);
      XorLowBits(a / 2, b / 2, c / 2, d / 2, j);
      var x, y := Xor(a / 2, b / 2), Xor(c / 2, d / 2);
      var bit := (a % 2 + b % 2) % 2;
      assert bit == (c % 2 + d % 2) % 2;
      XorUnfold(a, b);
      XorUnfold(c, d);
      CongDouble(x, y, bit, j);
    }
  }

  lemma {:induction false} OrLowBits(a: int, b: int, c: int, d: int, k: nat)
    requires a % Pow2(k) == c % Pow2(k) && b % Pow2(k) == d % Pow2(k)
    ensures Or(a, b) % Pow2(k) == Or(c, d) % Pow2(k)
    decreases k
  {
    if k > 0 {
      var j := k - 1;
      CongHalf(a, c, j);
      CongHalf(b, d, j);
      OrLowBits(a / 2, b / 2, c / 2, d / 2, j);
      var x, y := Or(a / 2, b / 2), Or(c / 2, d / 2);
      var bit := if a % 2 == 1 || b % 2 == 1 then 1 else 0;
      assert bit == if c % 2 == 1 || d % 2 == 1 then 1 else 0;
      OrUnfold(a, b);
      OrUnfold(c, d);
      CongDouble(x, y, bit, j);
    }
  }

  lemma ScaleLeft(x: int, p: int, q: int)
    requires x == p * q
    ensures 2 * x == (2 * p) * q
  {
  }

  lemma {:induction false} Pow2Add(i: nat, j: nat)
    ensures Pow2(i + j) == Pow2(i) * Pow2(j)
  {
    if i > 0 {
      Pow2Add(i - 1, j);
      Pow2Split(i);
      Pow2Split(i + j);
      ScaleLeft(Pow2(i - 1 + j), Pow2(i - 1), Pow2(j));
    }
  }

  lemma Pow2Is32()
    ensures Pow2(32) == TWO32 && Pow2(8) == 256 && Pow2(5) == 32
  {
  }

  lemma XorCong32(a: int, b: int, c: int, d: int)
    requires Cong32(a, c) && Cong32(b, d)
    ensures Cong32(Xor(a, b), Xor(c, d))
  {
    Pow2Is32();
    XorLowBits(a, b, c, d, 32);
  }

  lemma OrCong32(a: int, b: int, c: int, d: int)
    requires Cong32(a, c) && Cong32(b, d)
    ensures Cong32(Or(a, b), Or(c, d))
  {
    Pow2Is32();
    OrLowBits(a, b, c, d, 32);
  }

  lemma MulCong32(a: int, b: int, c: int, d: int)
    requires Cong32(a, c) && Cong32(b, d)
    ensures Cong32(a * b, c * d)
  {
    CongMul(a, c, b, TWO32);
    CongMul(b, d, c, TWO32);
    assert b * c == c * b && d * c == c * d;
  }

  lemma AddCong32(a: int, b: int, c: int, d: int)
    requires Cong32(a, c) && Cong32(b, d)
    ensures Cong32(a + b, c + d)
  {
    CongAdd(a, c, b, d, TWO32);
  }

  lemma ShlCong32(a: int, c: int, k: nat)
    requires Cong32(a, c)
    ensures Cong32(Shl(a, k), Shl(c, k))
  {
    CongMul(a, c, Pow2(k), TWO32);
  }

  /** `a & 0xFFFFFFFF` reads only the low 32 bits. */
  lemma Low32OfCong(a: int, c: int)
    requires Cong32(a, c)
    ensures Low(a, 32) == Low(c, 32)
  {
    Pow2Is32();
  }

  /** The low byte is fixed by the low 32 bits. */
  lemma LowByteOfCong(a: int, c: int)
    requires Cong32(a, c)
    ensures Low(a, 8) == Low(c, 8)
  {
    Pow2Is32();
    CongWeaken(a, c, 8, 32);
  }

  // ---------------------------------------------------------------------
  // Facts about the operators on small non-negative values
  // ---------------------------------------------------------------------

  lemma {:induction false} AndZero(a: int)
    ensures And(a, 0) == 0
    decreases Abs(a)
  {
    if a != 0 && a != -1 {
      HalfShrinks(a);
      AndZero(a / 2);
    }
  }

  /** `a mod 2m` from the low bit of `a` and `a / 2` modulo `m`. */
  lemma ModHalves(a: int, m: int)
    requires m >= 1
    ensures a % (2 * m) == 2 * ((a / 2) % m) + a % 2
  {
    var h, b := a / 2, a % 2;
    var q, r := h / m, h % m;
    assert a == 2 * h + b;
    assert h == q * m + r;
    assert 2 * (q * m) == q * (2 * m);
    DivModUnique(a, 2 * m, q, 2 * r + b);
  }

  /** A value built as twice `(a / 2) mod m` plus the low bit of `a` is
      `a mod 2m`. */
  lemma ModOfHalves(x: int, h: int, a: int, m: int, n: int)
    requires m >= 1 && n == 2 * m
    requires x == 2 * h + a % 2 && h == (a / 2) % m
    ensures x == a % n
  {
    ModHalves(a, m);
  }

  /** One step of `a & mask` for a mask `2m - 1` of ones: the low bit of
      `a` is kept and the rest is `a / 2` under the mask `m - 1`. */
  lemma AndMaskStep(a: int, mask: int, m: int)
    requires m >= 1 && mask == 2 * m - 1
    ensures And(a, mask) == 2 * And(a / 2, m - 1) + a % 2
  {
    DivModUnique(mask, 2, m - 1, 1);
    AndUnfold(a, mask);
  }

  /** `a & (2**k - 1)` is `a` modulo 2^k, for negative `a` too. */
  lemma {:induction false} LowIsAnd(a: int, k: nat)
    ensures And(a, Pow2(k) - 1) == Low(a, k)
    decreases k
  {
    if k == 0 {
      AndZero(a);
    } else {
      Pow2Split(k);
      LowIsAnd(a / 2, k - 1);
      AndMaskHalves(a, Pow2(k), Pow2(k - 1));
    }
  }

  /** The step of `LowIsAnd`, on plain numbers: if the mask `m - 1` takes
      `a / 2` modulo `m`, the mask `2m - 1` takes `a` modulo `2m`. */
  lemma AndMaskHalves(a: int, n: int, m: int)
    requires m >= 1 && n == 2 * m && And(a / 2, m - 1) == (a / 2) % m
    ensures And(a, n - 1) == a % n
  {
    AndMaskStep(a, n - 1, m);
    ModOfHalves(And(a, n - 1), And(a / 2, m - 1), a, m, n);
  }

  /** The xor of two values below 2^k is a value below 2^k. */
  lemma {:induction false} XorBounded(a: int, b: int, k: nat)
    requires 0 <= a < Pow2(k) && 0 <= b < Pow2(k)
    ensures 0 <= Xor(a, b) < Pow2(k)
  {
    if k > 0 && !(a == 0 && b == 0) {
      Pow2Split(k);
      XorUnfold(a, b);
      XorBounded(a / 2, b / 2, k - 1);
    }
  }

  /** The quotient and the low bit of `a ^ b`. */
  lemma XorHalves(a: int, b: int)
    ensures Xor(a, b) / 2 == Xor(a / 2, b / 2) && Xor(a, b) % 2 == (a % 2 + b % 2) % 2
  {
    XorUnfold(a, b);
    DivModUnique(Xor(a, b), 2, Xor(a / 2, b / 2), (a % 2 + b % 2) % 2);
  }

  /** An integer is fixed by its half and its low bit; here the low bit of
      `y` is that of `a`, flipped twice by the low bit of `b`. */
  lemma BitCancel(a: int, b: int, x: int, y: int)
    requires x % 2 == (a % 2 + b % 2) % 2 && y % 2 == (x % 2 + b % 2) % 2
    requires y / 2 == a / 2
    ensures y == a
  {
  }

  /** `(a ^ b) ^ b == a`, on every pair of integers. */
  lemma {:induction false} XorCancel(a: int, b: int)
    ensures Xor(Xor(a, b), b) == a
    decreases Abs(a) + Abs(b)
  {
    if !((a == 0 || a == -1) && (b == 0 || b == -1)) {
      var x := Xor(a, b);
      XorHalves(a, b);
      XorHalves(x, b);
      HalfShrinks(a);
      HalfShrinks(b);
      XorCancel(a / 2, b / 2);
      BitCancel(a, b, x, Xor(x, b));
    }
  }
}
