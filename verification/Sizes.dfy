/** Byte counts on a page: `FormatSize` in internal/adapters/web/shared/templates/keys.go. */
module Sizes {
  import opened Numbers

  /** Go's 64-bit integer: arithmetic that would leave the range does not verify. */
  newtype int64 = x: int | -0x8000_0000_0000_0000 <= x < 0x8000_0000_0000_0000

  const UNIT: int64 := 1024
  const PREFIXES := "KMGTPE"

  function Power(exponent: nat): nat {
    if exponent == 0 then 1 else 1024 * Power(exponent - 1)
  }

  /** The prefix for which the scaled value is at least 1 and less than 1024. */
  ghost predicate Fits(bytes: int, exp: int) {
    0 <= exp < 6 && Power(exp + 1) <= bytes < Power(exp + 2)
  }

  lemma PowersOfUnit()
    ensures Power(1) == 0x400 && Power(2) == 0x10_0000 && Power(3) == 0x4000_0000
    ensures Power(4) == 0x100_0000_0000 && Power(5) == 0x4_0000_0000_0000 && Power(6) == 0x1000_0000_0000_0000
    ensures Power(7) == 0x40_0000_0000_0000_0000
  {
  }

  lemma {:induction false} PowersGrow(m: nat, n: nat)
    requires m <= n
    ensures 0 < Power(m) <= Power(n)
    decreases n
  {
    if n == 0 {
    } else if m < n {
      PowersGrow(m, n - 1);
    } else {
      PowersGrow(m - 1, n - 1);
    }
  }

  /** Every size from 1 KiB up has exactly one prefix, and a larger size never has a smaller one. */
  lemma PrefixGrows(bytes: int, bytes': int, exp: int, exp': int)
    requires Fits(bytes, exp) && Fits(bytes', exp') && bytes <= bytes'
    ensures exp <= exp'
  {
    if exp > exp' {
      PowersGrow(exp' + 2, exp + 1);
    }
  }

  /** One more division by 1024, carried over to the divisor. */
  lemma DivideOnce(bytes: int, div: int, n: int)
    requires div > 0 && n >= 1024 && n * div <= bytes < (n + 1) * div
    ensures div * 1024 <= bytes
    ensures n / 1024 >= 1 && (n / 1024) * (div * 1024) <= bytes < (n / 1024 + 1) * (div * 1024)
  {
    var q := n / 1024;
    AtMost(1024, n, div);
    AtMost(q * 1024, n, div);
    AtMost(n + 1, (q + 1) * 1024, div);
    assert (q * 1024) * div == q * (div * 1024) && ((q + 1) * 1024) * div == (q + 1) * (div * 1024);
  }

  lemma AtMost(a: int, b: int, c: int)
    requires a <= b && c > 0
    ensures a * c <= b * c
  {
  }

  // ----- the number that is printed --------------------------------------------------------

  /** The nearest whole number to a quotient; of two as near, the even one. */
  function RoundHalfEven(n: nat, d: nat): (r: nat)
    requires d > 0
    ensures 2 * (n - r * d) <= d && 2 * (r * d - n) <= d
    ensures 2 * (n - r * d) == d || 2 * (r * d - n) == d ==> r % 2 == 0
  {
    var q, rest := n / d, n % d;
    assert n == q * d + rest;
    assert (q + 1) * d == q * d + d;
    if 2 * rest < d || (2 * rest == d && q % 2 == 0) then q else q + 1
  }

  /** The distance between neighbouring 64-bit floats at `n`, for a whole number. */
  function Ulp(n: nat): (u: nat)
    ensures u > 0
  {
    if n < 0x20_0000_0000_0000 then 1 else 2 * Ulp(n / 2)
  }

  /** A whole number as a 64-bit float. */
  function Float64(n: nat): nat {
    RoundHalfEven(n, Ulp(n)) * Ulp(n)
  }

  /** The tenths the verb `%.1f` prints of the quotient: dividing by a power of two is exact, and
      so is the decimal it rounds. */
  function Tenths(bytes: nat, div: nat): nat
    requires div > 0
  {
    RoundHalfEven(10 * Float64(bytes), div)
  }

  function SizeText(tenths: nat, prefix: char): string {
    Decimal(tenths / 10) + "." + [Digit(tenths % 10)] + " " + [prefix] + "iB"
  }

  function PowerOfTwo(k: nat): nat {
    if k == 0 then 1 else 2 * PowerOfTwo(k - 1)
  }

  lemma {:induction false} UlpDivides(n: nat, k: nat) returns (m: nat)
    requires n < 0x20_0000_0000_0000 * PowerOfTwo(k)
    ensures Ulp(n) * m == PowerOfTwo(k)
  {
    if n < 0x20_0000_0000_0000 {
      m := PowerOfTwo(k);
    } else {
      m := UlpDivides(n / 2, k - 1);
    }
  }

  lemma LessThan(a: int, b: int, c: int)
    requires c > 0
    ensures a * c <= b * c <==> a <= b
    ensures a * c < b * c <==> a < b
  {
  }

  lemma MultipleBelow(n: nat, u: nat, a: nat)
    requires u > 0 && a * u <= n
    ensures a * u <= n / u * u
  {
    var q := n / u;
    assert n < (q + 1) * u;
    LessThan(a, q + 1, u);
    AtMost(a, q, u);
  }

  lemma MultipleAbove(n: nat, u: nat, b: nat)
    requires u > 0 && n < b * u
    ensures (n / u + 1) * u <= b * u
  {
    var q := n / u;
    assert q * u <= n;
    LessThan(q, b, u);
    AtMost(q + 1, b, u);
  }

  /** Rounding does not pass a multiple of the unit that the number itself does not pass. */
  lemma RoundsBetween(n: nat, u: nat, a: nat, b: nat)
    requires u > 0 && a * u <= n < b * u
    ensures a * u <= RoundHalfEven(n, u) * u <= b * u
  {
    MultipleBelow(n, u, a);
    MultipleAbove(n, u, b);
    var r, q := RoundHalfEven(n, u), n / u;
    assert r == q || r == q + 1;
    assert r * u == q * u || r * u == (q + 1) * u;
  }

  lemma Multiple(u: nat, m: nat, p: nat)
    requires u * m == 1024
    ensures m * p * u == 1024 * p
  {
    assert m * p * u == u * m * p;
  }

  /** As a float, a size still fits the prefix it was given, or has just reached the next one. */
  lemma {:induction false} FloatFits(bytes: nat, exp: int)
    requires Fits(bytes, exp) && bytes < 0x8000_0000_0000_0000
    ensures Power(exp + 1) <= Float64(bytes) <= Power(exp + 2)
  {
    var u := Ulp(bytes);
    assert PowerOfTwo(5) == 32 && PowerOfTwo(10) == 1024;
    var m := UlpDivides(bytes, 10);
    Multiple(u, m, Power(exp));
    Multiple(u, m, Power(exp + 1));
    RoundsBetween(bytes, u, m * Power(exp), m * Power(exp + 1));
  }

  lemma {:induction false} PowerIsPositive(exponent: nat)
    ensures Power(exponent) > 0
  {
    if exponent > 0 { PowerIsPositive(exponent - 1); }
  }

  /** What is printed is the nearest tenth: at least 1.0, and at most 1024.0, which it is exactly
      from 1023.95 on. The next prefix is not taken then. */
  lemma {:induction false} TenthsAreNear(bytes: nat, exp: int)
    requires Fits(bytes, exp) && bytes < 0x8000_0000_0000_0000
    ensures Power(exp + 1) > 0
    ensures var div := Power(exp + 1);
            var value, tenths := Float64(bytes), Tenths(bytes, div);
            && 10 <= tenths <= 10240
            && 2 * (10 * value - tenths * div) <= div && 2 * (tenths * div - 10 * value) <= div
            && (tenths == 10240 <==> 20 * value >= 20479 * div)
  {
    PowerIsPositive(exp + 1);
    FloatFits(bytes, exp);
    var div, value := Power(exp + 1), Float64(bytes);
    RoundedQuotient(value, div);
  }

  lemma RoundedQuotient(value: nat, div: nat)
    requires 0 < div <= value <= 1024 * div
    ensures 10 <= RoundHalfEven(10 * value, div) <= 10240
    ensures RoundHalfEven(10 * value, div) == 10240 <==> 20 * value >= 20479 * div
  {
    var n := 10 * value;
    var q, rest := n / div, n % div;
    assert n == q * div + rest;
    assert q >= 10 by { MultipleBelow(n, div, 10); LessThan(10, q, div); }
    if value < 1024 * div {
      MultipleAbove(n, div, 10240);
      LessThan(q + 1, 10240, div);
      AtMost(q, 10239, div);
      if q < 10239 { AtMost(q + 1, 10239, div); }
    } else {
      assert n == 10240 * div;
      LessThan(q, 10240, div);
      LessThan(10240, q + 1, div);
    }
  }

  // ----- the code --------------------------------------------------------------------------

  /** The loop ends with a divisor that never left 64 bits and a prefix that is there. */
  method Scale(bytes: int64) returns (div: int64, exp: nat)
    requires bytes >= UNIT
    ensures Fits(bytes as int, exp)
    ensures div as int == Power(exp + 1) && 0 < div <= bytes && bytes as int < 1024 * div as int
  {
    PowersOfUnit();
    div, exp := UNIT, 0;
    var n := bytes / UNIT;
    while n >= UNIT
      invariant 0 <= exp < |PREFIXES| && div as int == Power(exp + 1)
      invariant n >= 1 && n as int * div as int <= bytes as int < (n as int + 1) * div as int
      decreases n
    {
      DivideOnce(bytes as int, div as int, n as int);
      div := div * UNIT;
      exp := exp + 1;
      n := n / UNIT;
    }
    AtMost(1, n as int, div as int);
    AtMost(n as int + 1, 1024, div as int);
  }

  /** The tenths nearest to a size, as a 64-bit float, in units of `div`; of two as near, the even. */
  ghost predicate Nearest(tenths: nat, bytes: nat, div: int) {
    var distance := 2 * (10 * Float64(bytes) - tenths * div);
    -div <= distance <= div && (distance == div || distance == -div ==> tenths % 2 == 0)
  }

  /** A number with one decimal, a space, and the unit in which the size is at least 1 and less than
      1024. */
  ghost predicate Reads(text: string, bytes: int64, exp: nat, whole: nat, tenth: nat) {
    && 0 <= bytes && Fits(bytes as int, exp) && tenth < 10
    && Nearest(10 * whole + tenth, bytes as int, Power(exp + 1))
    && text == Decimal(whole) + ['.', Digit(tenth), ' ', "KMGTPE"[exp], 'i', 'B']
  }

  lemma TenthsAreNearest(bytes: nat, div: nat)
    requires div > 0
    ensures Nearest(Tenths(bytes, div), bytes, div)
  {
  }

  lemma {:induction false} SizeReads(bytes: int64, exp: nat, tenths: nat)
    requires 0 <= bytes && Fits(bytes as int, exp) && Nearest(tenths, bytes as int, Power(exp + 1))
    ensures Reads(SizeText(tenths, PREFIXES[exp]), bytes, exp, tenths / 10, tenths % 10)
  {
    assert 10 * (tenths / 10) + tenths % 10 == tenths;
  }

  method FormatSize(bytes: int64) returns (text: string)
    ensures bytes < 0 ==> text == "not measured"
    ensures 0 <= bytes < 1024 ==> text == Decimal(bytes as nat) + " B"
    ensures bytes >= 1024 ==> exists exp: nat, whole: nat, tenth: nat :: Reads(text, bytes, exp, whole, tenth)
  {
    if bytes < 0 {
      return "not measured";
    }
    if bytes < UNIT {
      return Decimal(bytes as nat) + " B";
    }
    var div, exp := Scale(bytes);
    text := SizeText(Tenths(bytes as nat, div as nat), PREFIXES[exp]);
    TenthsAreNearest(bytes as nat, div as nat);
    SizeReads(bytes, exp, Tenths(bytes as nat, div as nat));
  }
}
