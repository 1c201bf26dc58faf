/** Decimal printing (std::to_string) and number reading (std::stoi) as the C library does them. */
module Numbers {
  import opened Prelude
  import opened Text

  /** The range of a C++ int, and the number of values of a size_t. */
  const INT_LIMIT: int := 0x8000_0000
  const SIZE_LIMIT: int := 0x1_0000_0000_0000_0000

  /** static_cast<size_t> of a possibly negative number. */
  function ToSize(n: int): nat {
    n % SIZE_LIMIT
  }

  type Base = b: nat | b == 10 || b == 16 witness 10

  /** The value of a digit; 16 for a character that is none. */
  function Digit(c: char): nat {
    if '0' <= c <= '9' then c as nat - '0' as nat
    else if 'a' <= c <= 'f' then c as nat - 'a' as nat + 10
    else if 'A' <= c <= 'F' then c as nat - 'A' as nat + 10
    else 16
  }

  predicate IsDigit(c: char, base: Base) {
    Digit(c) < base
  }

  predicate AllDigits(s: string, base: Base) {
    forall i | 0 <= i < |s| :: IsDigit(s[i], base)
  }

  /** Reads digits until a character that is none, continuing from the value `acc`. */
  function Scan(s: string, base: Base, acc: nat): nat {
    if s == "" || !IsDigit(s[0], base) then acc
    else Scan(s[1..], base, acc * base + Digit(s[0]))
  }

  predicate HexPrefixed(s: string) {
    |s| >= 3 && s[0] == '0' && (s[1] == 'x' || s[1] == 'X') && IsDigit(s[2], 16)
  }

  /** std::stoi(s, 0, base): blanks, a sign, an optional 0x, digits; the rest is ignored. */
  function Stoi(s: string, base: Base): Result<int> {
    var t := TrimLeft(s);
    if t != "" && (t[0] == '-' || t[0] == '+') then Unsigned(t[0] == '-', t[1..], base) else Unsigned(false, t, base)
  }

  /** What follows the sign. */
  function Unsigned(negative: bool, u: string, base: Base): Result<int> {
    var digits := if base == 16 && HexPrefixed(u) then u[2..] else u;
    if digits == "" || !IsDigit(digits[0], base) then Thrown(InvalidNumber)
    else
      var v: int := Scan(digits, base, 0);
      var n := if negative then -v else v;
      if -INT_LIMIT <= n < INT_LIMIT then Ok(n) else Thrown(NumberOutOfRange)
  }

  lemma StoiInRange(s: string, base: Base)
    ensures Stoi(s, base).Ok? ==> -INT_LIMIT <= Stoi(s, base).value < INT_LIMIT
  {
  }

  /** What each digit is worth, in either case; no other character is one. */
  lemma DigitValues(c: char, d: nat)
    ensures d < 16 ==> Digit("0123456789abcdef"[d]) == d && Digit("0123456789ABCDEF"[d]) == d
    ensures Digit(c) < 16 <==> c in "0123456789abcdefABCDEF"
  {
  }

  /** Each further digit multiplies what was read by the base; the rest of the text is not looked at. */
  lemma ScanIsPositional(digits: string, last: char, rest: string, base: Base)
    requires AllDigits(digits, base) && IsDigit(last, base) && (rest == "" || !IsDigit(rest[0], base))
    ensures Scan(digits + [last] + rest, base, 0) == Scan(digits, base, 0) * base + Digit(last)
  {
    var n := Scan(digits, base, 0);
    assert digits + [last] + rest == digits + ([last] + rest) && ([last] + rest)[1..] == rest;
    ScanAppend(digits, [last] + rest, base, 0);
    assert Scan([last] + rest, base, n) == Scan(rest, base, n * base + Digit(last));
  }

  lemma {:induction false} SkipBlanks(blanks: string, s: string)
    requires AllSpace(blanks) && (s == "" || !IsSpace(s[0]))
    ensures TrimLeft(blanks + s) == s
    decreases |blanks|
  {
    if blanks == "" {
      assert blanks + s == s;
    } else {
      assert (blanks + s)[1..] == blanks[1..] + s;
      SkipBlanks(blanks[1..], s);
    }
  }

  lemma DigitIsNoBlank(c: char)
    requires IsDigit(c, 16)
    ensures !IsSpace(c) && c != '-' && c != '+'
  {
  }

  /**
   * What std::stoi reads: blanks, a sign, for base 16 a prefix, and digits as far as they go. What
   * follows the digits is ignored, and a number that does not fit an int throws.
   */
  lemma StoiReads(blanks: string, sign: string, prefix: string, digits: string, rest: string, base: Base)
    requires AllSpace(blanks) && sign in ["", "-", "+"]
    requires prefix == "" || (base == 16 && prefix in ["0x", "0X"])
    requires digits != "" && AllDigits(digits, base) && (rest == "" || !IsDigit(rest[0], base))
    requires base == 16 && prefix == "" ==> !HexPrefixed(digits + rest)
    ensures Stoi(blanks + (sign + (prefix + (digits + rest))), base) ==
            var v: int := Scan(digits, base, 0);
            var n := if sign == "-" then -v else v;
            if -0x8000_0000 <= n < 0x8000_0000 then Ok(n) else Thrown(NumberOutOfRange)
  {
    hide Unsigned;
    var u := prefix + (digits + rest);
    UnsignedReads(sign == "-", prefix, digits, rest, base);
    assert IsDigit(digits[0], base);
    DigitIsNoBlank(digits[0]);
    SkipBlanks(blanks, sign + u);
    assert sign != "" ==> (sign + u)[1..] == u;
    assert sign == "" ==> sign + u == u;
  }

  lemma UnsignedReads(negative: bool, prefix: string, digits: string, rest: string, base: Base)
    requires prefix == "" || (base == 16 && prefix in ["0x", "0X"])
    requires digits != "" && AllDigits(digits, base) && (rest == "" || !IsDigit(rest[0], base))
    requires base == 16 && prefix == "" ==> !HexPrefixed(digits + rest)
    ensures Unsigned(negative, prefix + (digits + rest), base) ==
            var v: int := Scan(digits, base, 0);
            var n := if negative then -v else v;
            if -0x8000_0000 <= n < 0x8000_0000 then Ok(n) else Thrown(NumberOutOfRange)
  {
    hide Scan;
    hide Digit;
    var u := prefix + (digits + rest);
    assert IsDigit(digits[0], base);
    assert prefix != "" ==> u[2..] == digits + rest && u[2] == digits[0];
    assert prefix == "" ==> u == digits + rest;
    ScanStops(digits, rest, base);
  }

  lemma ScanStops(digits: string, rest: string, base: Base)
    requires AllDigits(digits, base) && (rest == "" || !IsDigit(rest[0], base))
    ensures Scan(digits + rest, base, 0) == Scan(digits, base, 0)
  {
    ScanAppend(digits, rest, base, 0);
  }

  /** Without a digit at the front, behind blanks and a sign, there is no number. */
  lemma StoiFails(blanks: string, sign: string, rest: string, base: Base)
    requires AllSpace(blanks) && sign in ["", "-", "+"] && (rest == "" || !IsDigit(rest[0], base))
    requires sign == "" && rest != "" ==> !IsSpace(rest[0]) && rest[0] != '-' && rest[0] != '+'
    ensures Stoi(blanks + (sign + rest), base) == Thrown(InvalidNumber)
  {
    SkipBlanks(blanks, sign + rest);
    assert sign != "" ==> (sign + rest)[1..] == rest;
    assert sign == "" ==> sign + rest == rest;
  }

  /** std::to_string of a non-negative number. */
  function Decimal(n: nat): string {
    if n < 10 then [DigitChar(n)] else Decimal(n / 10) + [DigitChar(n % 10)]
  }

  function DigitChar(d: nat): char
    requires d < 10
  {
    ('0' as nat + d) as char
  }

  /** Digits without a superfluous leading zero. */
  predicate Canonical(s: string) {
    s != "" && AllDigits(s, 10) && (s[0] == '0' ==> s == "0")
  }

  /** Plain digits are read in full, whatever their case and however many leading zeros. */
  lemma StoiOfDigits(s: string, base: Base)
    requires s != "" && AllDigits(s, base)
    ensures Stoi(s, base) == if Scan(s, base, 0) < INT_LIMIT then Ok(Scan(s, base, 0)) else Thrown(NumberOutOfRange)
  {
    assert IsDigit(s[0], base);
    assert TrimLeft(s) == s;
    if |s| >= 2 {
      assert IsDigit(s[1], base);
    }
  }

  lemma {:induction false} ScanAppend(a: string, b: string, base: Base, acc: nat)
    requires AllDigits(a, base)
    ensures Scan(a + b, base, acc) == Scan(b, base, Scan(a, base, acc))
    decreases |a|
  {
    if a == "" {
      assert a + b == b;
    } else {
      assert IsDigit(a[0], base);
      assert (a + b)[1..] == a[1..] + b;
      ScanAppend(a[1..], b, base, acc * base + Digit(a[0]));
    }
  }

  /** Printing gives canonical digits, and reading them gives the number back. */
  lemma {:induction false} ScanOfDecimal(n: nat)
    ensures Canonical(Decimal(n))
    ensures Scan(Decimal(n), 10, 0) == n
    ensures Decimal(n)[0] == '0' ==> n == 0
  {
    var last := [DigitChar(n % 10)];
    assert Scan(last, 10, n / 10) == Scan("", 10, n / 10 * 10 + n % 10) == n;
    if n >= 10 {
      ScanOfDecimal(n / 10);
      ScanAppend(Decimal(n / 10), last, 10, 0);
    } else {
      assert Decimal(n) == last;
    }
  }

  lemma StoiOfDecimal(n: nat)
    requires n < INT_LIMIT
    ensures Stoi(Decimal(n), 10) == Ok(n)
  {
    ScanOfDecimal(n);
    StoiOfDigits(Decimal(n), 10);
  }

  /** The canonical texts are exactly those that printing produces. */
  lemma {:induction false} DecimalOfScan(s: string)
    requires s != "" && AllDigits(s, 10)
    ensures Decimal(Scan(s, 10, 0)) == s <==> Canonical(s)
    decreases |s|
  {
    ScanOfDecimal(Scan(s, 10, 0));
    if Canonical(s) {
      DecimalOfCanonical(s);
    }
  }

  lemma {:induction false} DecimalOfCanonical(s: string)
    requires Canonical(s)
    ensures Decimal(Scan(s, 10, 0)) == s
    ensures s[0] != '0' ==> Scan(s, 10, 0) > 0
    decreases |s|
  {
    var init, last := s[..|s| - 1], s[|s| - 1];
    assert s == init + [last];
    assert IsDigit(last, 10);
    ScanAppend(init, [last], 10, 0);
    var before := Scan(init, 10, 0);
    assert Scan([last], 10, before) == Scan("", 10, before * 10 + Digit(last)) == before * 10 + Digit(last);
    assert DigitChar(Digit(last)) == last;
    if init == "" {
      assert before == 0;
    } else {
      DecimalOfCanonical(init);
    }
  }

  function HexDigit(d: nat, upper: bool): char
    requires d < 16
  {
    if d < 10 then ('0' as nat + d) as char
    else ((if upper then 'A' else 'a') as nat + d - 10) as char
  }

  /** A number in hexadecimal digits of either case. */
  function Hex(n: nat, upper: bool): string {
    if n < 16 then [HexDigit(n, upper)] else Hex(n / 16, upper) + [HexDigit(n % 16, upper)]
  }

  lemma {:induction false} ScanOfHex(n: nat, upper: bool)
    ensures Hex(n, upper) != "" && AllDigits(Hex(n, upper), 16)
    ensures Scan(Hex(n, upper), 16, 0) == n
  {
    var last := [HexDigit(n % 16, upper)];
    assert Scan(last, 16, n / 16) == Scan("", 16, n / 16 * 16 + n % 16) == n;
    if n >= 16 {
      ScanOfHex(n / 16, upper);
      ScanAppend(Hex(n / 16, upper), last, 16, 0);
    } else {
      assert Hex(n, upper) == last;
    }
  }
}
