/** Decimal numbers, as Go prints and reads them. */
module Numbers {
  import opened Domain

  predicate IsDigit(c: char) {
    '0' <= c <= '9'
  }

  function Digit(d: nat): (c: char)
    requires d < 10
    ensures IsDigit(c) && Value(c) == d
  {
    ('0' as int + d) as char
  }

  function Value(c: char): int {
    c as int - '0' as int
  }

  function Decimal(n: nat): string {
    if n < 10 then [Digit(n)] else Decimal(n / 10) + [Digit(n % 10)]
  }

  function Zeros(n: nat): string {
    if n == 0 then "" else Zeros(n - 1) + "0"
  }

  // ----- reading -------------------------------------------------------------------------

  const MAX_INT: int := 0x7FFF_FFFF_FFFF_FFFF

  function ReadDigits(s: string): Option<nat> {
    if s == [] then Some(0)
    else ReadDigit(ReadDigits(s[..|s| - 1]), s[|s| - 1])
  }

  function ReadDigit(before: Option<nat>, c: char): Option<nat> {
    if before.None? || !IsDigit(c) then None else Some(before.value * 10 + Value(c))
  }

  /** `strconv.Atoi`: an optional sign and decimal digits, within 64 bits; anything else is an error. */
  function Atoi(s: string): Option<int> {
    var digits := if s != [] && (s[0] == '+' || s[0] == '-') then s[1..] else s;
    if digits == [] || ReadDigits(digits).None? then None
    else
      var n: int := ReadDigits(digits).value;
      var n := if s[0] == '-' then -n else n;
      if -MAX_INT - 1 <= n <= MAX_INT then Some(n) else None
  }

  lemma {:induction false} ReadOneMore(s: string, c: char)
    ensures ReadDigits(s + [c]) == ReadDigit(ReadDigits(s), c)
  {
    assert (s + [c])[..|s|] == s;
  }

  // ----- what is read is what is written ---------------------------------------------------

  function Padded(zeros: nat, n: nat): string {
    Zeros(zeros) + Decimal(n)
  }

  lemma PaddedOneMore(zeros: nat, n: nat)
    requires n >= 10
    ensures Padded(zeros, n) == Padded(zeros, n / 10) + [Digit(n % 10)]
  {
  }

  lemma {:induction false} ZerosRead(zeros: nat)
    ensures ReadDigits(Zeros(zeros)) == Some(0)
  {
    if zeros > 0 {
      ZerosRead(zeros - 1);
      ReadOneMore(Zeros(zeros - 1), '0');
    }
  }

  lemma {:induction false} PaddedReadsBack(zeros: nat, n: nat)
    ensures ReadDigits(Padded(zeros, n)) == Some(n)
  {
    if n < 10 {
      ZerosRead(zeros);
      ReadOneMore(Zeros(zeros), Digit(n));
    } else {
      PaddedReadsBack(zeros, n / 10);
      PaddedOneMore(zeros, n);
      ReadOneMore(Padded(zeros, n / 10), Digit(n % 10));
    }
  }

  lemma {:induction false} StartsWithDigit(zeros: nat, n: nat)
    ensures Padded(zeros, n) != [] && IsDigit(Padded(zeros, n)[0])
  {
    if zeros > 0 {
      ZerosAreDigits(zeros);
    } else if n >= 10 {
      StartsWithDigit(0, n / 10);
      PaddedOneMore(0, n);
    }
  }

  lemma {:induction false} ZerosAreDigits(zeros: nat)
    ensures |Zeros(zeros)| == zeros && forall i :: 0 <= i < zeros ==> IsDigit(Zeros(zeros)[i])
  {
    if zeros > 0 { ZerosAreDigits(zeros - 1); }
  }

  lemma {:induction false} DecimalReadsBack(n: nat)
    ensures Atoi(Decimal(n)) == if n <= MAX_INT then Some(n) else None
  {
    PaddedReadsBack(0, n);
    StartsWithDigit(0, n);
    assert Padded(0, n) == Decimal(n);
  }

  lemma DigitIsWritten(c: char)
    requires IsDigit(c)
    ensures Digit(Value(c)) == c
  {
  }

  lemma {:induction false} AppendToPadded(zeros: nat, n: nat, d: nat) returns (k: nat)
    requires d < 10
    ensures Padded(zeros, n) + [Digit(d)] == Padded(k, n * 10 + d)
  {
    if n == 0 {
      k := zeros + 1;
      assert Digit(0) == '0';
      assert Padded(zeros, 0) == Zeros(zeros + 1);
    } else {
      k := zeros;
      assert (n * 10 + d) / 10 == n && (n * 10 + d) % 10 == d;
      PaddedOneMore(zeros, n * 10 + d);
    }
  }

  /** Digits that are read are the number read, with zeros in front of it. */
  lemma {:induction false} ReadWasPadded(s: string) returns (zeros: nat)
    requires s != [] && ReadDigits(s).Some?
    ensures s == Padded(zeros, ReadDigits(s).value)
  {
    var init, c := s[..|s| - 1], s[|s| - 1];
    assert s == init + [c];
    DigitIsWritten(c);
    if init == [] {
      zeros := 0;
      assert Padded(0, Value(c)) == [c];
    } else {
      var k := ReadWasPadded(init);
      zeros := AppendToPadded(k, ReadDigits(init).value, Value(c));
    }
  }

  function Signed(plus: bool, zeros: nat, n: nat): string {
    if plus then ['+'] + Padded(zeros, n) else Padded(zeros, n)
  }

  /** The text writes a number: its decimal digits, with any zeros and a plus in front. */
  ghost predicate Writes(text: string, n: nat) {
    exists plus: bool, zeros: nat :: text == Signed(plus, zeros, n)
  }

  lemma SignedReadsBack(plus: bool, zeros: nat, n: nat)
    requires n <= MAX_INT
    ensures Atoi(Signed(plus, zeros, n)) == Some(n)
  {
    PaddedReadsBack(zeros, n);
    StartsWithDigit(zeros, n);
    assert (['+'] + Padded(zeros, n))[1..] == Padded(zeros, n);
  }

  lemma ReadWasSigned(text: string, n: nat)
    requires Atoi(text) == Some(n) && n > 0
    ensures Writes(text, n)
  {
    if text[0] == '+' {
      var zeros := ReadWasPadded(text[1..]);
      assert text == ['+'] + text[1..] == Signed(true, zeros, n);
    } else {
      var zeros := ReadWasPadded(text);
      assert text == Signed(false, zeros, n);
    }
  }

  /** Exactly the texts that write a positive number are read as it. */
  lemma WritingIsReading(text: string, n: nat)
    requires 0 < n <= MAX_INT
    ensures Atoi(text) == Some(n) <==> Writes(text, n)
  {
    if Writes(text, n) {
      var plus, zeros :| text == Signed(plus, zeros, n);
      SignedReadsBack(plus, zeros, n);
    } else if Atoi(text) == Some(n) {
      ReadWasSigned(text, n);
    }
  }
}
