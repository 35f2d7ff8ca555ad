/**
 * The scalar types of the interpreter (QBasic/basic/Config.hpp) together with
 * the pieces of the C and C++ standard library the interpreter leans on:
 * the <cctype> character classes in the "C" locale, std::to_string, and the
 * truncating integer division and remainder of C++.
 */
module BasicConfig {

  import opened StdTypes

  type LineID = x: nat | x < UINT32_MOD
  type Count = x: nat | x < UINT32_MOD

  /** ++ on a uint32_t counter. */
  function Inc(c: Count): (r: Count)
    ensures c + 1 < UINT32_MOD ==> r == c + 1
    ensures c + 1 == UINT32_MOD ==> r == 0
  {
    (c + 1) % UINT32_MOD
  }

  // ---------------------------------------------------------------------------
  // <cctype> in the "C" locale

  predicate IsSpace(c: char) {
    c == ' ' || (9 <= c as int <= 13)
  }

  predicate IsDigitChar(c: char) {
    '0' <= c <= '9'
  }

  predicate IsAlpha(c: char) {
    ('a' <= c <= 'z') || ('A' <= c <= 'Z')
  }

  predicate IsAlnum(c: char) {
    IsAlpha(c) || IsDigitChar(c)
  }

  predicate AllDigits(s: string) {
    forall i :: 0 <= i < |s| ==> IsDigitChar(s[i])
  }

  function DigitValue(c: char): (d: nat)
    requires IsDigitChar(c)
    ensures d < 10
  {
    c as int - '0' as int
  }

  function DigitChar(d: nat): (c: char)
    requires d < 10
    ensures IsDigitChar(c) && DigitValue(c) == d
  {
    ('0' as int + d) as char
  }

  /** The value of a digit string read left to right, ret = ret * 10 + digit. */
  function DigitsValue(s: string): nat
    requires AllDigits(s)
  {
    if s == [] then 0 else DigitsValue(s[..|s| - 1]) * 10 + DigitValue(s[|s| - 1])
  }

  // ---------------------------------------------------------------------------
  // std::to_string

  /** std::to_string of a non-negative integer. */
  function DecimalNat(n: nat): (s: string)
    ensures |s| > 0 && AllDigits(s)
    ensures n < 10 <==> |s| == 1
  {
    if n < 10 then [DigitChar(n)] else DecimalNat(n / 10) + [DigitChar(n % 10)]
  }

  /** std::to_string of any integer: a '-' before the magnitude when negative. */
  function DecimalInt(n: int): (s: string)
    ensures |s| > 0
    ensures n >= 0 ==> s == DecimalNat(n)
    ensures n < 0 ==> s == "-" + DecimalNat(-n)
  {
    if n < 0 then "-" + DecimalNat(-n) else DecimalNat(n)
  }

  /** Reading back what std::to_string printed gives the number again. */
  lemma {:induction false} DecimalNatRoundTrip(n: nat)
    ensures DigitsValue(DecimalNat(n)) == n
  {
    var s := DecimalNat(n);
    if n >= 10 {
      DecimalNatRoundTrip(n / 10);
      assert s[..|s| - 1] == DecimalNat(n / 10);
    }
  }

  // ---------------------------------------------------------------------------
  // C++ integer division and remainder: the quotient is truncated toward zero.

  /** Division of magnitudes (kept apart so that the solver sees no raw non-linear division). */
  function NatDiv(n: nat, d: nat): nat
    requires d > 0
  {
    n / d
  }

  /** C++ `a / b` on integers: the quotient of the magnitudes, negated when the signs differ. */
  function TDiv(a: int, b: int): (q: int)
    requires b != 0
    ensures Abs(q) == NatDiv(Abs(a), Abs(b))
    ensures q > 0 ==> ((a < 0) == (b < 0))
    ensures q < 0 ==> ((a < 0) != (b < 0))
  {
    var m: int := NatDiv(Abs(a), Abs(b));
    if (a < 0) == (b < 0) then m else -m
  }

  /** C++ `a % b` on integers: a == (a / b) * b + a % b. */
  function TRem(a: int, b: int): (r: int)
    requires b != 0
    ensures a == TDiv(a, b) * b + r
  {
    a - TDiv(a, b) * b
  }

  /** The remainder is the remainder of the magnitudes, carrying the sign of the dividend. */
  lemma TRemSigned(a: int, b: int)
    requires b != 0
    ensures TRem(a, b) == if a < 0 then -(Abs(a) % Abs(b)) else Abs(a) % Abs(b)
  {
    var n: int, d: int := Abs(a), Abs(b);
    var q: int := NatDiv(n, d);
    assert n == q * d + n % d;
    if a >= 0 && b > 0 {
      assert TDiv(a, b) * b == q * d;
    } else if a >= 0 {
      assert TDiv(a, b) == -q && b == -d;
      assert TDiv(a, b) * b == q * d;
    } else if b > 0 {
      assert TDiv(a, b) == -q && a == -n;
      assert TDiv(a, b) * b == -(q * d);
    } else {
      assert TDiv(a, b) == q && a == -n && b == -d;
      assert TDiv(a, b) * b == -(q * d);
    }
  }

  /** Hence the remainder is smaller than the divisor in magnitude and takes the sign of the dividend. */
  lemma TRemBounds(a: int, b: int)
    requires b != 0
    ensures Abs(TRem(a, b)) < Abs(b)
    ensures a >= 0 ==> TRem(a, b) >= 0
    ensures a <= 0 ==> TRem(a, b) <= 0
  {
    TRemSigned(a, b);
  }
  // ---------------------------------------------------------------------------
  // Arithmetic modulo 2^32

  lemma MulAtLeast(a: int, m: nat)
    requires a >= 1
    ensures a * m >= m
  {
  }

  /** The remainder is the unique r in [0, m) with y == q * m + r. */
  lemma ModUnique(y: int, q: int, r: int, m: nat)
    requires m > 0 && y == q * m + r && 0 <= r < m
    ensures y % m == r
  {
    var q2, r2 := y / m, y % m;
    assert y == q2 * m + r2;
    assert (q - q2) * m == r2 - r;
    if q - q2 >= 1 {
      MulAtLeast(q - q2, m);
    } else if q2 - q >= 1 {
      assert (q2 - q) * m == r - r2;
      MulAtLeast(q2 - q, m);
    }
  }

  /** One Horner step in uint32_t arithmetic leaves the same residue as the exact step. */
  lemma HornerMod(a: nat, d: nat)
    requires d < 10
    ensures ((a % UINT32_MOD) * 10 + d) % UINT32_MOD == (a * 10 + d) % UINT32_MOD
  {
    var q := a / UINT32_MOD;
    var r := a % UINT32_MOD;
    var y := r * 10 + d;
    assert a == q * UINT32_MOD + r;
    assert a * 10 + d == (q * 10 + y / UINT32_MOD) * UINT32_MOD + y % UINT32_MOD;
    ModUnique(a * 10 + d, q * 10 + y / UINT32_MOD, y % UINT32_MOD, UINT32_MOD);
  }
}
