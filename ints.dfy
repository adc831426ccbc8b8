/**
 * Fixed-width integers, C++ integer division and decimal text, as the
 * network code uses them: bytes, `uint32_t` length fields in host (little
 * endian) byte order, `std::chrono::duration_cast` truncation and
 * `std::to_string` of unsigned values.
 */
module Ints {

  /** One octet of a byte buffer (`uint8_t`). */
  type Byte = x: int | 0 <= x < 256

  const UINT32_LIMIT: nat := 0x1_0000_0000
  const UINT64_LIMIT: nat := 0x1_0000_0000_0000_0000

  /** The values a `uint32_t` can hold. */
  predicate IsUint32(n: int) { 0 <= n < UINT32_LIMIT }

  /** `static_cast<uint32_t>(n)` of a non-negative size: keeps the low 32 bits. */
  function ToUint32(n: nat): (r: nat)
    ensures IsUint32(r)
    ensures n < UINT32_LIMIT ==> r == n
  {
    n % UINT32_LIMIT
  }

  /** The four bytes `memcpy` copies out of a `uint32_t` on a little-endian host. */
  function EncodeUint32(n: nat): (r: seq<Byte>)
    ensures |r| == 4
  {
    var m := ToUint32(n);
    [m % 256, (m / 0x100) % 256, (m / 0x1_0000) % 256, m / 0x100_0000]
  }

  /** The `uint32_t` that `memcpy` fills from four bytes on a little-endian host. */
  function DecodeUint32(b: seq<Byte>): (r: nat)
    requires |b| == 4
    ensures IsUint32(r)
  {
    var b0, b1, b2, b3: int := b[0], b[1], b[2], b[3];
    b0 + 0x100 * b1 + 0x1_0000 * b2 + 0x100_0000 * b3
  }

  /** Writing a length into the four-byte field and reading it back gives the length modulo 2^32. */
  lemma Uint32RoundTrip(n: nat)
    ensures DecodeUint32(EncodeUint32(n)) == n % UINT32_LIMIT
  {
    var m := n % UINT32_LIMIT;
    var q1 := m / 0x100;
    var q2 := q1 / 0x100;
    var q3 := q2 / 0x100;
    assert m == m % 256 + 0x100 * q1;
    assert q1 == q1 % 256 + 0x100 * q2;
    assert q2 == q2 % 256 + 0x100 * q3;
    assert q2 == m / 0x1_0000;
    assert q3 == m / 0x100_0000;
  }

  /** Any four bytes are the encoding of the value they decode to. */
  lemma Uint32BytesRoundTrip(b: seq<Byte>)
    requires |b| == 4
    ensures EncodeUint32(DecodeUint32(b)) == b
  {
    var m := DecodeUint32(b);
    var b0, b1, b2, b3: int := b[0], b[1], b[2], b[3];
    assert m / 0x100 == b1 + 0x100 * b2 + 0x1_0000 * b3;
    assert m / 0x1_0000 == b2 + 0x100 * b3;
    assert m / 0x100_0000 == b3;
  }

  /**
   * C++ integer division of a signed count by a positive divisor, which
   * truncates toward zero (Dafny's `/` is Euclidean).  This is what
   * `duration_cast` to a coarser unit and `duration / count` compute.
   */
  function TruncDiv(a: int, b: int): (q: int)
    requires b > 0
    ensures a >= 0 ==> q >= 0
    ensures a <= 0 ==> q <= 0
    ensures q == 0 <==> -b < a < b
  {
    if a >= 0 then NatDiv(a, b) else -(NatDiv(-a, b) as int)
  }

  /** Quotient of natural numbers by repeated subtraction. */
  function NatDiv(a: nat, b: nat): (q: nat)
    requires b > 0
    ensures q == 0 <==> a < b
    decreases a
  {
    if a < b then 0 else 1 + NatDiv(a - b, b)
  }

  /** Truncating division agrees with Dafny's division of magnitudes. */
  lemma TruncDivIsDiv(a: int, b: int)
    requires b > 0
    ensures TruncDiv(a, b) == if a >= 0 then a / b else -((-a) / b)
  {
    if a >= 0 {
      NatDivIsDiv(a, b);
    } else {
      NatDivIsDiv(-a, b);
    }
  }

  lemma {:induction false} NatDivIsDiv(a: nat, b: nat)
    requires b > 0
    ensures NatDiv(a, b) == a / b
    decreases a
  {
    if a < b {
      DivUnique(a, b, 0, a);
    } else {
      NatDivIsDiv(a - b, b);
      var q := (a - b) / b;
      var r := (a - b) % b;
      assert a - b == q * b + r;
      assert a == (q + 1) * b + r;
      DivUnique(a, b, q + 1, r);
    }
  }

  /** Euclidean division is determined by its quotient-remainder equation. */
  lemma DivUnique(a: int, b: int, q: int, r: int)
    requires b > 0 && a == q * b + r && 0 <= r < b
    ensures a / b == q
  {
    var q' := a / b;
    var r' := a % b;
    assert a == q' * b + r';
    assert (q' - q) * b == r - r';
    if q' > q {
      MulPositive(q' - q, b);
    }
    if q' < q {
      MulPositive(q - q', b);
    }
  }

  /** Dividing an exact multiple loses nothing. */
  lemma TruncDivExact(q: int, b: int)
    requires b > 0
    ensures TruncDiv(q * b, b) == q
  {
    TruncDivIsDiv(q * b, b);
    if q >= 0 {
      DivUnique(q * b, b, q, 0);
    } else {
      assert -(q * b) == (-q) * b;
      DivUnique(-(q * b), b, -q, 0);
    }
  }

  lemma MulPositive(x: int, b: int)
    requires x >= 1 && b >= 1
    ensures x * b >= b
  {
    assert x * b == (x - 1) * b + b;
    if x > 1 { MulPositive(x - 1, b); }
  }

  /** The character for a decimal digit. */
  function DigitChar(d: nat): (c: char)
    requires d < 10
    ensures '0' <= c <= '9'
  {
    "0123456789"[d]
  }

  /** The value of a decimal digit character. */
  function DigitValue(c: char): (d: nat)
    requires IsDigit(c)
    ensures d < 10 && DigitChar(d) == c
  {
    (c as int) - ('0' as int)
  }

  predicate IsDigit(c: char) { '0' <= c <= '9' }

  /** `std::to_string` of an unsigned value: its decimal digits, most significant first, no sign, no padding. */
  function DecimalString(n: nat): (s: string)
    ensures 1 <= |s|
    ensures forall i :: 0 <= i < |s| ==> IsDigit(s[i])
    ensures n < 10 <==> |s| == 1
    ensures |s| > 1 ==> s[0] != '0'
  {
    if n < 10 then [DigitChar(n)] else DecimalString(n / 10) + [DigitChar(n % 10)]
  }

  /** The number a string of decimal digits denotes. */
  function DecimalValue(s: string): (n: nat)
    requires forall i :: 0 <= i < |s| ==> IsDigit(s[i])
  {
    if s == [] then 0 else 10 * DecimalValue(s[..|s| - 1]) + DigitValue(s[|s| - 1])
  }

  /** Decimal text is read back as the number it was written from. */
  lemma {:induction false} DecimalRoundTrip(n: nat)
    ensures DecimalValue(DecimalString(n)) == n
  {
    var s := DecimalString(n);
    if n < 10 {
      assert s[..0] == [];
    } else {
      var t := DecimalString(n / 10);
      assert s[..|s| - 1] == t;
      DecimalRoundTrip(n / 10);
    }
  }

  /** Two numbers with the same decimal text are equal. */
  lemma DecimalInjective(m: nat, n: nat)
    requires DecimalString(m) == DecimalString(n)
    ensures m == n
  {
    DecimalRoundTrip(m);
    DecimalRoundTrip(n);
  }
}
