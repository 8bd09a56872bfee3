/**
 * strconv.Atoi on a 64-bit platform. Atoi accepts an optional '+' or '-'
 * followed by at least one ASCII decimal digit, and fails with ErrRange when
 * the value does not fit in a 64-bit int. For inputs longer than 18 bytes Go
 * delegates to ParseInt(s, 10, 0), whose unsigned scan (ParseUint) checks
 * each character in turn and reports ErrRange as soon as the digits read so
 * far exceed the 64-bit unsigned range; the model follows that path, and
 * ShortInputNeverOverflows shows that shorter inputs can only fail with
 * ErrSyntax, as Atoi's fast path does.
 */
module Strconv {
  import opened Wrappers

  /** The two sentinel errors a failed conversion carries. */
  datatype NumError = ErrSyntax | ErrRange

  const MaxUint64: nat := 0xFFFF_FFFF_FFFF_FFFF
  const MaxInt64: int := 0x7FFF_FFFF_FFFF_FFFF
  const MinInt64: int := -0x8000_0000_0000_0000

  predicate IsDigit(c: char) {
    '0' <= c <= '9'
  }

  predicate AllDigits(s: string) {
    forall i | 0 <= i < |s| :: IsDigit(s[i])
  }

  function DigitValue(c: char): (d: nat)
    requires IsDigit(c)
    ensures d < 10
  {
    c as int - '0' as int
  }

  function DigitChar(d: nat): (c: char)
    requires d < 10
    ensures IsDigit(c) && DigitValue(c) == d
  {
    ('0' as int + d) as char
  }

  function Pow10(k: nat): (p: nat)
    ensures p >= 1
  {
    if k == 0 then 1 else 10 * Pow10(k - 1)
  }

  /** The number a string of decimal digits denotes, most significant digit first. */
  function Value(s: string): nat
    requires AllDigits(s)
  {
    if s == [] then 0 else DigitValue(s[0]) * Pow10(|s| - 1) + Value(s[1..])
  }

  /**
   * ParseUint's loop over the remaining characters s, with n the value read so
   * far: a non-digit is a syntax error, a value beyond 64 unsigned bits a range error.
   */
  function ScanDigits(s: string, n: nat): Result<nat, NumError>
    requires n <= MaxUint64
  {
    if s == [] then Ok(n)
    else if !IsDigit(s[0]) then Err(ErrSyntax)
    else
      var n1 := n * 10 + DigitValue(s[0]);
      if n1 > MaxUint64 then Err(ErrRange) else ScanDigits(s[1..], n1)
  }

  /** strconv.ParseUint(s, 10, 64). */
  function ParseUint(s: string): Result<nat, NumError>
  {
    if s == [] then Err(ErrSyntax) else ScanDigits(s, 0)
  }

  /** The part of s after an optional leading sign. */
  function Unsigned(s: string): (b: string)
    ensures |b| <= |s|
  {
    if |s| > 0 && (s[0] == '+' || s[0] == '-') then s[1..] else s
  }

  /**
   * strconv.Atoi(s) with a 64-bit int, following ParseInt(s, 10, 0): Go calls
   * that for the empty string and for inputs of 19 bytes or more, and its fast
   * path for 1 to 18 bytes gives the same results (ShortInputNeverOverflows).
   */
  function Atoi(s: string): Result<int, NumError>
  {
    if s == [] then Err(ErrSyntax)
    else
      var neg := s[0] == '-';
      match ParseUint(Unsigned(s))
      case Err(e) => Err(e)
      case Ok(un) =>
        if !neg && un > MaxInt64 then Err(ErrRange)
        else if neg && un > -MinInt64 then Err(ErrRange)
        else Ok(if neg then -(un as int) else un)
  }

  /** The syntax Atoi accepts: an optional sign, then one or more decimal digits. */
  predicate IsDecimalInteger(s: string) {
    |Unsigned(s)| > 0 && AllDigits(Unsigned(s))
  }

  /** The integer a decimal-integer string denotes, sign included. */
  function SignedValue(s: string): int
    requires IsDecimalInteger(s)
  {
    if s[0] == '-' then -(Value(Unsigned(s)) as int) else Value(Unsigned(s))
  }

  predicate InInt64(n: int) {
    MinInt64 <= n <= MaxInt64
  }

  /** A digit in front of a k-digit tail stays below the next power of ten. */
  lemma LeadingDigitBound(d: nat, p: nat, v: nat)
    requires d < 10 && v < p
    ensures d * p + v < 10 * p
  {
    assert d * p <= 9 * p;
  }

  lemma {:induction false} ValueBound(s: string)
    requires AllDigits(s)
    ensures Value(s) < Pow10(|s|)
  {
    if s != [] {
      ValueBound(s[1..]);
      LeadingDigitBound(DigitValue(s[0]), Pow10(|s| - 1), Value(s[1..]));
    }
  }

  /** A non-empty digit string is a digit followed by a digit string. */
  lemma AllDigitsCons(s: string)
    requires s != []
    ensures AllDigits(s) <==> IsDigit(s[0]) && AllDigits(s[1..])
  {
    if IsDigit(s[0]) && AllDigits(s[1..]) {
      forall i | 1 <= i < |s| ensures IsDigit(s[i]) { assert s[i] == s[1..][i - 1]; }
    }
  }

  /** Reading one more digit d: the value still to come, seen from before and after the digit. */
  lemma ScanStep(n: nat, d: nat, p: nat, v: nat)
    requires p >= 1
    ensures n * (10 * p) + (d * p + v) == (n * 10 + d) * p + v
    ensures (n * 10 + d) * p + v >= n * 10 + d
  {
    assert n * (10 * p) == (n * 10) * p;
    assert (n * 10 + d) * p >= (n * 10 + d) * 1;
  }

  /** ParseUint's scan computes the value of the digits, or says which error stops it. */
  lemma {:induction false} ScanDigitsSpec(s: string, n: nat)
    requires n <= MaxUint64
    ensures AllDigits(s) && n * Pow10(|s|) + Value(s) <= MaxUint64 ==>
              ScanDigits(s, n) == Ok(n * Pow10(|s|) + Value(s))
    ensures AllDigits(s) && n * Pow10(|s|) + Value(s) > MaxUint64 ==>
              ScanDigits(s, n) == Err(ErrRange)
    ensures !AllDigits(s) ==> ScanDigits(s, n).Err?
  {
    if s != [] {
      AllDigitsCons(s);
      if IsDigit(s[0]) {
        var t := s[1..];
        var d := DigitValue(s[0]);
        var n1 := n * 10 + d;
        if AllDigits(t) {
          assert Pow10(|s|) == 10 * Pow10(|t|);
          assert Value(s) == d * Pow10(|t|) + Value(t);
          ScanStep(n, d, Pow10(|t|), Value(t));
        }
        if n1 <= MaxUint64 {
          ScanDigitsSpec(t, n1);
        }
      }
    }
  }

  /** Reading digit d cannot take the bound (n + 1) * 10^(k + 1) below the one for the new value. */
  lemma OverflowStep(n: nat, d: nat, p: nat)
    requires d < 10 && p >= 1
    ensures (n + 1) * (10 * p) >= (n * 10 + d + 1) * p >= n * 10 + d + 1
  {
    assert (n + 1) * (10 * p) == (n * 10 + 10) * p;
  }

  /** The scan overflows only when the remaining digits could carry the value past 64 unsigned bits. */
  lemma {:induction false} ScanRangeNeedsLength(s: string, n: nat)
    requires n <= MaxUint64
    ensures ScanDigits(s, n) == Err(ErrRange) ==> (n + 1) * Pow10(|s|) > MaxUint64
  {
    if s != [] && IsDigit(s[0]) {
      var n1 := n * 10 + DigitValue(s[0]);
      assert Pow10(|s|) == 10 * Pow10(|s| - 1);
      OverflowStep(n, DigitValue(s[0]), Pow10(|s| - 1));
      if n1 <= MaxUint64 {
        ScanRangeNeedsLength(s[1..], n1);
      }
    }
  }

  /** Atoi succeeds exactly on decimal-integer syntax with a value in the 64-bit range, and returns that value. */
  lemma AtoiSpec(s: string)
    ensures Atoi(s).Ok? <==> IsDecimalInteger(s) && InInt64(SignedValue(s))
    ensures Atoi(s).Ok? ==> Atoi(s).value == SignedValue(s)
    ensures IsDecimalInteger(s) && !InInt64(SignedValue(s)) ==> Atoi(s) == Err(ErrRange)
    ensures Atoi(s) == Err(ErrSyntax) ==> !IsDecimalInteger(s)
  {
    var b := Unsigned(s);
    if b != [] {
      ScanDigitsSpec(b, 0);
    }
  }

  /** Inputs of at most 18 characters never overflow, so they fail, if at all, with ErrSyntax (Atoi's fast path). */
  lemma ShortInputNeverOverflows(s: string)
    requires |s| <= 18
    ensures Atoi(s) != Err(ErrRange)
  {
    var b := Unsigned(s);
    Pow10Monotone(|b|, 18);
    assert Pow10(9) == 1_000_000_000;
    assert Pow10(18) == 1_000_000_000_000_000_000;
    AtoiSpec(s);
    if IsDecimalInteger(s) {
      ValueBound(b);
      assert InInt64(SignedValue(s));
    } else if b != [] {
      ScanDigitsSpec(b, 0);
      ScanRangeNeedsLength(b, 0);
      assert (0 + 1) * Pow10(|b|) == Pow10(|b|);
    }
  }

  lemma {:induction false} Pow10Monotone(j: nat, k: nat)
    requires j <= k
    ensures Pow10(j) <= Pow10(k)
  {
    if j < k {
      Pow10Monotone(j, k - 1);
    }
  }

  /** The decimal digits of n, most significant first, without leading zeros (strconv.Itoa for n >= 0). */
  function FormatNat(n: nat): (s: string)
    ensures |s| > 0 && AllDigits(s)
    decreases n
  {
    if n < 10 then [DigitChar(n)] else FormatNat(n / 10) + [DigitChar(n % 10)]
  }

  /** strconv.Itoa: the decimal form of n, with '-' in front of a negative number. */
  function Itoa(n: int): string
  {
    if n < 0 then "-" + FormatNat(-n) else FormatNat(n)
  }

  /** Appending a digit after a leading digit a shifts a's weight by one power of ten. */
  lemma SnocStep(a: nat, p: nat, v: nat, d: nat)
    ensures a * (10 * p) + (v * 10 + d) == (a * p + v) * 10 + d
  {
    assert a * (10 * p) == (a * p) * 10;
  }

  lemma {:induction false} ValueSnoc(t: string, c: char)
    requires AllDigits(t) && IsDigit(c)
    ensures AllDigits(t + [c]) && Value(t + [c]) == Value(t) * 10 + DigitValue(c)
  {
    assert AllDigits(t + [c]) by {
      forall i | 0 <= i < |t + [c]| ensures IsDigit((t + [c])[i]) {
        if i < |t| { assert (t + [c])[i] == t[i]; }
      }
    }
    if t != [] {
      var u := t[1..];
      assert (t + [c])[1..] == u + [c];
      ValueSnoc(u, c);
      assert Pow10(|u| + 1) == 10 * Pow10(|u|);
      SnocStep(DigitValue(t[0]), Pow10(|u|), Value(u), DigitValue(c));
    }
  }

  lemma {:induction false} ValueFormatNat(n: nat)
    ensures Value(FormatNat(n)) == n
    decreases n
  {
    if n >= 10 {
      ValueFormatNat(n / 10);
      ValueSnoc(FormatNat(n / 10), DigitChar(n % 10));
    }
  }

  /** Atoi reads back what Itoa writes, for every 64-bit int. */
  lemma AtoiItoa(n: int)
    requires InInt64(n)
    ensures IsDecimalInteger(Itoa(n)) && Atoi(Itoa(n)) == Ok(n)
  {
    var s := Itoa(n);
    if n < 0 {
      var f := FormatNat(-n);
      assert s[0] == '-' && Unsigned(s) == f;
      ValueFormatNat(-n);
    } else {
      ValueFormatNat(n);
      assert Unsigned(s) == s;
    }
    AtoiSpec(s);
  }
}
