/**
 * The Java value types the cipher program computes with, written out with
 * Java's own rules: 32-bit two's-complement `int` with wrap-around, the
 * truncating remainder operator `%`, the unsigned 16-bit `char` and the
 * narrowing cast `(char)`, and `String` as its sequence of UTF-16 code units.
 */
module JavaInt {

  const IntMin: int := -0x8000_0000
  const IntMax: int := 0x7fff_ffff

  /** Java `int`. */
  type Int32 = x: int | -0x8000_0000 <= x < 0x8000_0000

  /** Java `char`: one UTF-16 code unit, treated purely as a number. */
  type Char16 = c: int | 0 <= c < 0x1_0000

  /** Java `String`: its code units, in order. */
  type String = seq<Char16>

  /** A Java reference that may be `null`. */
  datatype Option<+T> = None | Some(value: T) {
    function GetOr(default: T): T {
      match this
      case Some(v) => v
      case None => default
    }
  }

  /** The `int` that Java's 32-bit arithmetic leaves of the exact value `x`. */
  function Wrap32(x: int): (r: Int32)
    ensures IntMin <= x <= IntMax ==> r == x
    ensures (r - x) % 0x1_0000_0000 == 0
  {
    (x + 0x8000_0000) % 0x1_0000_0000 - 0x8000_0000
  }

  /** Java's unary `-a` on an `int`: `-Integer.MIN_VALUE` is `Integer.MIN_VALUE`. */
  function Neg(a: Int32): (r: Int32)
    ensures a != IntMin ==> r == -a
    ensures a == IntMin ==> r == IntMin
  {
    Wrap32(-(a as int))
  }

  /**
   * Java's `a % b` for a positive divisor: the quotient is truncated toward
   * zero, so the remainder takes the sign of `a` (Dafny's `%` is Euclidean).
   * Adding `b` to a negative remainder gives the Euclidean residue.
   */
  function Rem(a: int, b: int): (r: int)
    requires b > 0
    ensures -b < r < b
    ensures a >= 0 ==> r >= 0
    ensures a <= 0 ==> r <= 0
    ensures (if r < 0 then r + b else r) == a % b
  {
    if a >= 0 then a % b
    else
      NegatedResidue(-a, b);
      -((-a) % b)
  }

  /** The Euclidean residue of `-n` from that of `n`. */
  lemma NegatedResidue(n: int, b: int)
    requires n >= 0 && b > 0
    ensures (-n) % b == if n % b == 0 then 0 else b - n % b
  {
    var q, m := n / b, n % b;
    assert n == q * b + m;
    if m == 0 {
      ResidueUnique(-n, -q, b, 0);
    } else {
      ResidueUnique(-n, -q - 1, b, b - m);
    }
  }

  /** `x % b` is the one `r` in `[0, b)` that differs from `x` by a multiple of `b`. */
  lemma ResidueUnique(x: int, k: int, b: int, r: int)
    requires b > 0 && 0 <= r < b && x == k * b + r
    ensures x % b == r
  {
    var q, m := x / b, x % b;
    assert x == q * b + m;
    var d := k - q;
    assert d * b == m - r;
    if d > 0 {
      assert false;
    } else if d < 0 {
      assert false;
    }
  }

  /** The narrowing cast `(char) x`: it keeps the low 16 bits of `x`. */
  function ToChar(x: Int32): (r: Char16)
    ensures 0 <= x < 0x1_0000 ==> r == x
    ensures (r - x) % 0x1_0000 == 0
  {
    x % 0x1_0000
  }

  /** A Java string literal, for literals made of characters below U+10000. */
  function Lit(s: string): (r: String)
    ensures |r| == |s|
  {
    seq(|s|, i requires 0 <= i < |s| => (s[i] as int) % 0x1_0000)
  }

  /** Replacing a summand by its residue does not change the residue of the sum. */
  lemma AddResidue(a: int, b: int, m: int)
    requires m > 0
    ensures (a % m + b) % m == (a + b) % m
  {
    var q, p := a / m, (a + b) / m;
    assert a == q * m + a % m;
    assert a + b == p * m + (a + b) % m;
    assert a % m + b == (p - q) * m + (a + b) % m;
    ResidueUnique(a % m + b, p - q, m, (a + b) % m);
  }

  /** Adding `k` and then something congruent to `-k` comes back to the residue of `c`. */
  lemma CancelResidue(c: int, k: int, n: int, m: int)
    requires m > 0 && n % m == (-k) % m
    ensures ((c + k) % m + n) % m == c % m
  {
    var qs, qn, qk, qc := (c + k) / m, n / m, (-k) / m, c / m;
    var r := n % m;
    assert c + k == qs * m + (c + k) % m;
    assert n == qn * m + r;
    assert -k == qk * m + r;
    assert c == qc * m + c % m;
    assert (c + k) % m + n == (qc + qn - qs - qk) * m + c % m;
    ResidueUnique((c + k) % m + n, qc + qn - qs - qk, m, c % m);
  }

  /** Java's `-a` has the low 16 bits of the exact `-a`, `Integer.MIN_VALUE` included. */
  lemma NegLowBits(a: Int32)
    ensures Neg(a) % 0x1_0000 == (-(a as int)) % 0x1_0000
  {
    if a == IntMin {
      ResidueUnique(IntMin, -0x8000, 0x1_0000, 0);
      ResidueUnique(-IntMin, 0x8000, 0x1_0000, 0);
    }
  }

  /** Wrapping to 32 bits never changes the low 16 bits. */
  lemma Wrap32LowBits(x: int)
    ensures Wrap32(x) % 0x1_0000 == x % 0x1_0000
  {
    var w := Wrap32(x);
    var q := (w - x) / 0x1_0000_0000;
    assert w == x + q * 0x1_0000_0000;
    assert q * 0x1_0000_0000 == (q * 0x1_0000) * 0x1_0000;
  }
}
