/** The slice of Go's strings and strconv packages the core relies on:
    strings.HasPrefix, strings.Split with a one-character separator, the decimal
    rendering used by `%d`, and strconv.Atoi with its exact error and clamping
    behaviour. */
module Text {

  const MaxUint64: nat := 0xffff_ffff_ffff_ffff
  const MaxInt64: int := 0x7fff_ffff_ffff_ffff
  const MinInt64: int := -0x8000_0000_0000_0000

  /** strings.HasPrefix(s, prefix) */
  predicate HasPrefix(s: string, prefix: string) {
    |prefix| <= |s| && s[..|prefix|] == prefix
  }

  predicate IsDigit(c: char) {
    '0' <= c <= '9'
  }

  predicate AllDigits(s: string) {
    forall i :: 0 <= i < |s| ==> IsDigit(s[i])
  }

  function DigitOf(c: char): (d: nat)
    requires IsDigit(c)
    ensures d < 10
  {
    c as int - '0' as int
  }

  function DigitChar(d: nat): (c: char)
    requires d < 10
    ensures IsDigit(c) && DigitOf(c) == d
  {
    ('0' as int + d) as char
  }

  /** Go's `%` on integers: the remainder of division truncated toward zero, which
      takes the sign of the dividend (Dafny's own `%` never goes negative). */
  function TruncRem(a: int, m: int): (r: int)
    requires m > 0
    ensures a >= 0 ==> 0 <= r < m
    ensures a < 0 ==> -m < r <= 0
  {
    if a >= 0 then a % m else -((-a) % m)
  }

  /** The truncated remainder differs from the dividend by a multiple of the divisor. */
  lemma TruncRemCongruent(a: int, m: int)
    requires m > 0
    ensures exists q :: a == q * m + TruncRem(a, m)
  {
    if a >= 0 {
      assert a == (a / m) * m + TruncRem(a, m);
    } else {
      assert a == -((-a) / m) * m + TruncRem(a, m);
    }
  }

  // ---------------------------------------------------------------------------
  // Decimal rendering (`%d`, strconv.Itoa)
  // ---------------------------------------------------------------------------

  /** The decimal digits of `n`, most significant first, without leading zeros. */
  function NatToString(n: nat): (s: string)
    ensures 1 <= |s| && AllDigits(s)
    ensures |s| == 1 <==> n < 10
  {
    if n < 10 then [DigitChar(n)] else NatToString(n / 10) + [DigitChar(n % 10)]
  }

  /** `%d` of a signed integer. */
  function IntToString(n: int): string {
    if n < 0 then "-" + NatToString(-n) else NatToString(n)
  }

  /** The value of a string of decimal digits, read most significant first. */
  function DecimalValue(s: string): nat
    requires AllDigits(s)
  {
    if s == [] then 0 else DecimalValue(s[..|s| - 1]) * 10 + DigitOf(s[|s| - 1])
  }

  /** Reading back what NatToString printed gives the number again. */
  lemma {:induction false} DecimalValueOfNatToString(n: nat)
    ensures DecimalValue(NatToString(n)) == n
  {
    if n >= 10 {
      var s := NatToString(n / 10);
      DecimalValueOfNatToString(n / 10);
      assert (s + [DigitChar(n % 10)])[..|s|] == s;
    }
  }

  /** Distinct numbers print differently. */
  lemma NatToStringInjective(a: nat, b: nat)
    requires NatToString(a) == NatToString(b)
    ensures a == b
  {
    DecimalValueOfNatToString(a);
    DecimalValueOfNatToString(b);
  }

  // ---------------------------------------------------------------------------
  // strconv.Atoi
  // ---------------------------------------------------------------------------

  datatype UintScan = Digits(value: nat) | SyntaxError | RangeError

  /** The digit loop of strconv.ParseUint in base 10. Each character must be a
      digit (else a syntax error) and the running value must stay within 64 bits
      (else a range error); whichever happens first decides. */
  function ScanUint(s: string, acc: nat): (r: UintScan)
    requires acc <= MaxUint64
    ensures r.Digits? ==> r.value <= MaxUint64
    decreases |s|
  {
    if s == [] then Digits(acc)
    else if !IsDigit(s[0]) then SyntaxError
    else if acc * 10 + DigitOf(s[0]) > MaxUint64 then RangeError
    else ScanUint(s[1..], acc * 10 + DigitOf(s[0]))
  }

  /** strconv.ParseUint(s, 10, 64): an empty string is a syntax error. */
  function ParseUint(s: string): UintScan {
    if s == [] then SyntaxError else ScanUint(s, 0)
  }

  /** The (value, err == nil) pair that strconv.Atoi returns. */
  datatype ParsedInt = ParsedInt(value: int, ok: bool)

  /** strconv.Atoi on a 64-bit platform: an optional sign, then ParseUint on the
      rest. A syntax error yields 0; a value outside int64 yields the nearest
      int64 bound together with an error, which callers that drop the error see. */
  function Atoi(s: string): (r: ParsedInt)
    ensures MinInt64 <= r.value <= MaxInt64
    ensures !r.ok ==> r.value == 0 || r.value == MinInt64 || r.value == MaxInt64
    ensures r.ok ==> s != [] && (IsDigit(s[0]) || s[0] == '-' || s[0] == '+')
  {
    if s == [] then ParsedInt(0, false)
    else
      var neg := s[0] == '-';
      var digits := if s[0] == '-' || s[0] == '+' then s[1..] else s;
      match ParseUint(digits)
      case SyntaxError => ParsedInt(0, false)
      case RangeError => ParsedInt(if neg then MinInt64 else MaxInt64, false)
      case Digits(u) =>
        if !neg && u > MaxInt64 then ParsedInt(MaxInt64, false)
        else if neg && u > -MinInt64 then ParsedInt(MinInt64, false)
        else var v: int := u; ParsedInt(if neg then -v else v, true)
  }

  /** Scanning one more character continues from where the shorter scan ended. */
  lemma {:induction false} ScanUintSnoc(s: string, c: char, acc: nat)
    requires acc <= MaxUint64
    ensures ScanUint(s + [c], acc) ==
      match ScanUint(s, acc)
      case Digits(v) =>
        if !IsDigit(c) then SyntaxError
        else if v * 10 + DigitOf(c) > MaxUint64 then RangeError
        else Digits(v * 10 + DigitOf(c))
      case SyntaxError => SyntaxError
      case RangeError => RangeError
  {
    if s != [] {
      assert (s + [c])[0] == s[0];
      assert (s + [c])[1..] == s[1..] + [c];
      if IsDigit(s[0]) && acc * 10 + DigitOf(s[0]) <= MaxUint64 {
        ScanUintSnoc(s[1..], c, acc * 10 + DigitOf(s[0]));
      }
    }
  }

  lemma {:induction false} ScanUintOfNatToString(n: nat)
    requires n <= MaxUint64
    ensures ScanUint(NatToString(n), 0) == Digits(n)
  {
    if n >= 10 {
      ScanUintOfNatToString(n / 10);
      ScanUintSnoc(NatToString(n / 10), DigitChar(n % 10), 0);
    }
  }

  /** strconv.Atoi reads back every int64 that `%d` prints. */
  lemma AtoiOfIntToString(n: int)
    requires MinInt64 <= n <= MaxInt64
    ensures Atoi(IntToString(n)) == ParsedInt(n, true)
  {
    if n < 0 {
      var s := IntToString(n);
      assert s[1..] == NatToString(-n);
      ScanUintOfNatToString(-n);
    } else {
      ScanUintOfNatToString(n);
    }
  }

  // ---------------------------------------------------------------------------
  // strings.Split with a one-character separator
  // ---------------------------------------------------------------------------

  function Count(s: string, c: char): nat {
    if s == [] then 0 else (if s[0] == c then 1 else 0) + Count(s[1..], c)
  }

  /** strings.Split(s, string(sep)): the pieces between separators, so one more
      piece than there are separators, and none containing the separator. */
  function Split(s: string, sep: char): (parts: seq<string>)
    ensures |parts| == Count(s, sep) + 1
    ensures forall i :: 0 <= i < |parts| ==> sep !in parts[i]
  {
    if s == [] then [""]
    else
      var rest := Split(s[1..], sep);
      if s[0] == sep then [""] + rest
      else [[s[0]] + rest[0]] + rest[1..]
  }

  /** strings.Join(parts, string(sep)) */
  function Join(parts: seq<string>, sep: char): string
    requires |parts| >= 1
  {
    if |parts| == 1 then parts[0] else parts[0] + [sep] + Join(parts[1..], sep)
  }

  /** Splitting loses nothing: joining the pieces gives the input back. */
  lemma {:induction false} JoinSplit(s: string, sep: char)
    ensures Join(Split(s, sep), sep) == s
  {
    if s != [] {
      var rest := Split(s[1..], sep);
      JoinSplit(s[1..], sep);
      if s[0] != sep && |rest| > 1 {
        assert rest == [rest[0]] + rest[1..];
      }
    }
  }

  lemma {:induction false} SplitWithoutSeparator(s: string, sep: char)
    requires sep !in s
    ensures Split(s, sep) == [s]
  {
    if s != [] {
      SplitWithoutSeparator(s[1..], sep);
      assert [s[0]] + s[1..] == s;
    }
  }

  /** A string with exactly one separator splits into the two sides. */
  lemma {:induction false} SplitAtOnlySeparator(a: string, b: string, sep: char)
    requires sep !in a && sep !in b
    ensures Split(a + [sep] + b, sep) == [a, b]
  {
    var s := a + [sep] + b;
    if a == [] {
      assert s[1..] == b;
      SplitWithoutSeparator(b, sep);
    } else {
      assert s[1..] == a[1..] + [sep] + b;
      SplitAtOnlySeparator(a[1..], b, sep);
      assert [a[0]] + a[1..] == a;
    }
  }
}
